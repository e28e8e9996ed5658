/** The RegisterCache object: the arrays, maps and free list it updates in place, and the code it emits
    while it does. */
module RegisterCacheObject {
  import opened Words
  import opened Memories
  import opened Instructions
  import opened HostMachine
  import opened RegisterCaches
  import CacheProperties
  import opened Translator

  /** The instructions assembled so far, and the next label. */
  class Assembler {
    var code: Code
    var labels: Label

    constructor ()
      ensures code == [] && labels == 0
    {
      code, labels := [], 0;
    }

    method Emit(i: HInstr)
      modifies this`code
      ensures code == old(code) + [i]
    {
      code := code + [i];
    }

    /** Several calls in a row. */
    method EmitAll(s: Code)
      modifies this`code
      ensures code == old(code) + s
    {
      code := code + s;
    }

    method AllocateLabel() returns (l: Label)
      modifies this`labels
      ensures l == old(labels) && labels == l + 1
    {
      l := labels;
      labels := labels + 1;
    }
  }

  /** The element v has moved from lo to j, past the elements `past`. */
  predicate Sinking(slots: seq<Slot>, was: seq<SlotId>, now: seq<SlotId>, lo: nat, j: nat, v: SlotId, past: seq<SlotId>)
    requires |slots| == CACHE_SIZE && lo <= j < |was|
  {
    && |past| == j - lo && now == was[..lo] + past + [v] + was[j + 1..]
    && past + InsertByUse(slots, v, was[j + 1..]) == InsertByUse(slots, v, was[lo + 1..])
  }

  lemma SinkStarts(slots: seq<Slot>, was: seq<SlotId>, lo: nat)
    requires |slots| == CACHE_SIZE && lo < |was|
    ensures Sinking(slots, was, was, lo, lo, was[lo], [])
  {
    hide InsertByUse;
    assert was == was[..lo] + [] + [was[lo]] + was[lo + 1..];
  }

  lemma SinkReads(slots: seq<Slot>, was: seq<SlotId>, now: seq<SlotId>, lo: nat, j: nat, v: SlotId, past: seq<SlotId>)
    requires |slots| == CACHE_SIZE && lo <= j < |was| && Sinking(slots, was, now, lo, j, v, past)
    ensures |now| == |was| && now[j] == v && now[..lo] == was[..lo]
    ensures j + 1 < |was| ==> now[j + 1] == was[j + 1]
  {
    hide InsertByUse;
  }

  lemma SinkMoves(slots: seq<Slot>, was: seq<SlotId>, now: seq<SlotId>, lo: nat, j: nat, v: SlotId, past: seq<SlotId>)
    requires |slots| == CACHE_SIZE && lo <= j && j + 1 < |was| && Sinking(slots, was, now, lo, j, v, past)
             && |now| == |was|
    requires slots[v].lastUse <= slots[was[j + 1]].lastUse
    ensures Sinking(slots, was, now[j := was[j + 1]][j + 1 := v], lo, j + 1, v, past + [was[j + 1]])
  {
    hide InsertByUse;
    var next, rest := was[j + 1], was[j + 2..];
    InsertUnfold(slots, v, was[j + 1..]);
    assert was[j + 1..] == [next] + rest;
    SwapMoves(was[..lo] + past, v, next, rest);
    assert was[..lo] + past + [next] == was[..lo] + (past + [next]);
    assert past + ([next] + InsertByUse(slots, v, rest)) == (past + [next]) + InsertByUse(slots, v, rest);
  }

  lemma SinkEnds(slots: seq<Slot>, was: seq<SlotId>, now: seq<SlotId>, lo: nat, j: nat, v: SlotId, past: seq<SlotId>)
    requires |slots| == CACHE_SIZE && lo <= j < |was| && Sinking(slots, was, now, lo, j, v, past)
    requires j + 1 < |was| ==> slots[v].lastUse > slots[was[j + 1]].lastUse
    ensures |now| == |was| && now[lo..] == InsertByUse(slots, v, was[lo + 1..])
  {
    hide InsertByUse;
    InsertUnfold(slots, v, was[j + 1..]);
    assert now == was[..lo] + (past + ([v] + was[j + 1..]));
  }

  lemma SwapMoves(p: seq<SlotId>, v: SlotId, next: SlotId, rest: seq<SlotId>)
    ensures var x := p + [v] + ([next] + rest);
            x[|p| := next][|p| + 1 := v] == p + [next] + [v] + rest
  {
  }

  /** Moves the first element of a[lo..] to its place in the rest, which is sorted. */
  method Sink(a: array<SlotId>, lo: nat, slots: seq<Slot>)
    requires lo < a.Length && |slots| == CACHE_SIZE
    modifies a
    ensures a[..lo] == old(a[..lo])
    ensures a[lo..] == InsertByUse(slots, old(a[lo]), old(a[lo + 1..]))
  {
    hide Sinking, InsertByUse;
    var j := lo;
    ghost var v, was, past := a[lo], a[..], [];
    SinkStarts(slots, was, lo);
    SinkReads(slots, was, a[..], lo, j, v, past);
    while j + 1 < a.Length && slots[a[j]].lastUse <= slots[a[j + 1]].lastUse
      invariant lo <= j < a.Length && Sinking(slots, was, a[..], lo, j, v, past)
      invariant a[j] == v && (j + 1 < a.Length ==> a[j + 1] == was[j + 1])
    {
      ghost var now := a[..];
      SinkMoves(slots, was, now, lo, j, v, past);
      a[j], a[j + 1] := a[j + 1], a[j];
      assert a[..] == now[j := was[j + 1]][j + 1 := v];
      past := past + [was[j + 1]];
      j := j + 1;
      SinkReads(slots, was, a[..], lo, j, v, past);
    }
    SinkReads(slots, was, a[..], lo, j, v, past);
    SinkEnds(slots, was, a[..], lo, j, v, past);
    assert a[..][lo..] == a[lo..] && a[..][..lo] == a[..lo] && was[lo + 1..] == old(a[lo + 1..]);
  }

  lemma InsertUnfold(slots: seq<Slot>, v: SlotId, s: seq<SlotId>)
    requires |slots| == CACHE_SIZE
    ensures InsertByUse(slots, v, s) == if s == [] || slots[v].lastUse > slots[s[0]].lastUse then [v] + s
                                        else [s[0]] + InsertByUse(slots, v, s[1..])
  {
  }

  /** std::sort by last use, latest first, here by insertion. */
  method SortInPlace(a: array<SlotId>, slots: seq<Slot>)
    requires |slots| == CACHE_SIZE
    modifies a
    ensures a[..] == SortByUse(slots, old(a[..]))
  {
    var i := a.Length;
    ghost var was := a[..];
    while i > 0
      invariant 0 <= i <= a.Length && a[..i] == was[..i] && a[i..] == SortByUse(slots, was[i..])
    {
      i := i - 1;
      assert was[i..][0] == was[i] && was[i..][1..] == was[i + 1..];
      assert a[..i + 1][i] == was[..i + 1][i];
      Sink(a, i, slots);
      assert a[..i] == was[..i + 1][..i];
    }
    assert a[0..] == a[..] && was[0..] == was;
  }

  lemma SortKeepsLength(slots: seq<Slot>, s: seq<SlotId>)
    requires |slots| == CACHE_SIZE
    ensures |SortByUse(slots, s)| == |s|
  {
    CacheProperties.SortIs(slots, s);
    assert |multiset(SortByUse(slots, s))| == |multiset(s)|;
  }

  class RegisterCache {
    const assembler: Assembler
    var programCounter: nat
    const slots: array<Slot>
    const registerToSlot: array<nat>
    const platformRegisterToSlot: array<nat>
    var freeSlots: seq<SlotId>

    ghost function View(): Cache
      reads this, slots, registerToSlot
    {
      Cache(programCounter, slots[..], registerToSlot[..], freeSlots)
    }

    ghost predicate Valid()
      reads this, slots, registerToSlot, platformRegisterToSlot
    {
      && Shape(View()) && registerToSlot != platformRegisterToSlot && platformRegisterToSlot.Length == 32
      && forall r: HReg :: platformRegisterToSlot[r] == SlotOfHost(r)
    }

    constructor (assembler: Assembler)
      ensures Valid() && View() == NewCache() && this.assembler == assembler
      ensures fresh(slots) && fresh(registerToSlot) && fresh(platformRegisterToSlot)
    {
      this.assembler := assembler;
      programCounter := 0;
      slots := new Slot[CACHE_SIZE](_ => EMPTY);
      registerToSlot := new nat[32](_ => NONE);
      platformRegisterToSlot := new nat[32](_ => NONE);
      freeSlots := [];
      new;
      for i := 0 to CACHE_SIZE
        invariant fresh(slots) && fresh(registerToSlot) && fresh(platformRegisterToSlot)
        invariant forall k :: 0 <= k < CACHE_SIZE ==> slots[k] == EMPTY
        invariant forall k :: 0 <= k < 32 ==> registerToSlot[k] == NONE
        invariant programCounter == 0 && |freeSlots| == i && forall k :: 0 <= k < i ==> freeSlots[k] == k
        invariant forall r: HReg :: platformRegisterToSlot[r] == if SlotOfHost(r) < i then SlotOfHost(r) else NONE
      {
        CacheRegInverse(i);
        HostsApart(i);
        platformRegisterToSlot[CacheReg(i)] := i;
        freeSlots := freeSlots + [i];
      }
      NewCacheIs(View());
    }

    /** None where the source's verify fails: the cache is full. */
    method AcquireCacheSlot() returns (r: Option<SlotId>)
      requires Valid()
      modifies this`freeSlots
      ensures Valid()
      ensures if old(freeSlots) == [] then r == None && View() == old(View())
              else r == Some(old(freeSlots)[|old(freeSlots)| - 1])
                   && View() == old(View()).(free := old(freeSlots)[..|old(freeSlots)| - 1])
    {
      if freeSlots == [] {
        return None;
      }
      r := Some(freeSlots[|freeSlots| - 1]);
      freeSlots := freeSlots[..|freeSlots| - 1];
    }

    /** One round of the eviction loop. */
    method Evict(slotId: SlotId)
      requires Valid()
      modifies this`freeSlots, slots, registerToSlot, assembler`code
      ensures Valid() && View() == EvictSlot(old(View()), slotId)
      ensures assembler.code == old(assembler.code) + EvictCode(old(View()), slotId)
    {
      var slot := slots[slotId];
      if slot.dirty {
        assembler.Emit(Spill(slotId, slot.reg));
      }
      registerToSlot[slot.reg] := NONE;
      slots[slotId] := EMPTY;
      freeSlots := freeSlots + [slotId];
    }

    /** Unlocked slots in use, in slot order. */
    method AvailableSlots() returns (available: seq<SlotId>)
      requires Valid()
      ensures available == AvailableFrom(slots[..], 0)
    {
      hide AvailableFrom;
      available := [];
      for i := 0 to CACHE_SIZE
        invariant available + AvailableFrom(slots[..], i) == AvailableFrom(slots[..], 0)
      {
        CacheProperties.AvailableUnfold(slots[..], i);
        if Evictable(slots[i]) {
          available := available + [i];
        }
      }
      AvailableNone(slots[..]);
    }

    /** The slots, most recently used first. */
    method SortedSlots(available: seq<SlotId>) returns (sorted: seq<SlotId>)
      requires Valid()
      ensures sorted == SortByUse(slots[..], available)
    {
      hide SortByUse;
      var a := new SlotId[|available|](i requires 0 <= i < |available| => available[i]);
      assert a[..] == available;
      SortInPlace(a, slots[..]);
      sorted := a[..];
    }

    /** False where the source's verify fails, with nothing changed. */
    method FreeCacheSlots(count: nat) returns (ok: bool)
      requires Valid()
      modifies this`freeSlots, slots, registerToSlot, assembler`code
      ensures Valid()
      ensures var e := FreeSlots(old(View()), count);
              ok == e.ok && View() == e.cache && assembler.code == old(assembler.code) + e.code
    {
      hide EvictSlot, EvictCode, AvailableFrom, SortByUse, EvictLast;
      var availableSlots := AvailableSlots();
      SortKeepsLength(slots[..], availableSlots);
      if |availableSlots| < count {
        return false;
      }
      availableSlots := SortedSlots(availableSlots);
      ghost var e := EvictLast(View(), availableSlots, count);
      for i := 0 to count
        invariant Valid() && count - i <= |availableSlots|
        invariant EvictLast(View(), availableSlots, count - i).cache == e.cache
        invariant assembler.code + EvictLast(View(), availableSlots, count - i).code == old(assembler.code) + e.code
      {
        EvictLastUnfold(View(), availableSlots, count - i);
        var slotId := availableSlots[|availableSlots| - 1];
        availableSlots := availableSlots[..|availableSlots| - 1];
        Evict(slotId);
      }
      EvictLastNothing(View(), availableSlots);
      return true;
    }

    /** Locks what is cached of the request and makes room for the rest; false when it cannot. */
    method ReserveRegisters(registers: seq<Request>) returns (ok: bool)
      requires Valid()
      modifies this`freeSlots, slots, registerToSlot, assembler`code
      ensures Valid()
      ensures var e := Reserve(old(View()), registers);
              ok == e.ok && View() == e.cache && assembler.code == old(assembler.code) + e.code
    {
      hide FreeSlots, MarkCached, Missing;
      var missingRegisters := MarkRegisters(registers);
      if |missingRegisters| > |freeSlots| {
        ok := FreeCacheSlots(|missingRegisters| - |freeSlots|);
      } else {
        ok := true;
      }
    }

    /** The first loop of reserve_registers. The set is the source's bit mask, its size the mask's
        population count. */
    method MarkRegisters(registers: seq<Request>) returns (missing: set<GuestReg>)
      requires Valid()
      modifies slots
      ensures Valid() && View() == MarkCached(old(View()), registers) && missing == Missing(old(View()), registers)
    {
      hide Missing, MarkCached;
      missing := {};
      MissingNone(View());
      for i := 0 to |registers|
        invariant Valid() && registerToSlot[..] == old(registerToSlot[..]) && freeSlots == old(freeSlots)
        invariant MarkCached(View(), registers[i..]) == MarkCached(old(View()), registers)
        invariant missing == Missing(old(View()), registers[..i])
      {
        var reg := registers[i].reg;
        MarkUnfold(View(), registers[i..]);
        assert registers[i..][1..] == registers[i + 1..];
        assert registers[..i + 1] == registers[..i] + [registers[i]];
        MissingNext(old(View()), registers[..i], registers[i]);
        if reg != 0 {
          var slotId := registerToSlot[reg];
          if slotId != NONE {
            slots[slotId] := slots[slotId].(locked := true);
          } else {
            missing := missing + {reg};
          }
        }
      }
      assert registers[..|registers|] == registers;
      MarkNone(View());
    }

    /** The registers given, or nothing when a verify fails. */
    method LockRegistersInternal(registers: seq<Request>) returns (output: seq<HReg>, ok: bool)
      requires Valid()
      modifies this`freeSlots, slots, registerToSlot, assembler`code
      ensures Valid()
      ensures var l := Lock(old(View()), registers);
              ok == l.ok && View() == l.cache && assembler.code == old(assembler.code) + l.code
                && (ok ==> output == l.regs)
    {
      hide Reserve, LockEach, Reads;
      output := [];
      ok := ReserveRegisters(registers);
      if !ok {
        return;
      }
      var readRegisters := ReadRegisters(registers);
      output, ok := LockReserved(registers, readRegisters);
    }

    /** The second loop of lock_registers_internal. */
    method LockReserved(registers: seq<Request>, readRegisters: set<GuestReg>) returns (output: seq<HReg>, ok: bool)
      requires Valid()
      modifies this`freeSlots, slots, registerToSlot, assembler`code
      ensures Valid()
      ensures var l := LockEach(old(View()), registers, readRegisters);
              ok == l.ok && View() == l.cache && assembler.code == old(assembler.code) + l.code
                && (ok ==> output == l.regs)
    {
      hide LockEach, UseSlot, AssignSlot, FillCode;
      output := [];
      ghost var l := LockEach(View(), registers, readRegisters);
      for i := 0 to |registers|
        invariant Valid()
        invariant var rest := LockEach(View(), registers[i..], readRegisters);
                  rest.ok == l.ok && rest.cache == l.cache && assembler.code + rest.code == old(assembler.code) + l.code
                  && (l.ok ==> output + rest.regs == l.regs)
      {
        LockEachCases(View(), registers[i..], readRegisters);
        assert registers[i..][1..] == registers[i + 1..];
        var given := LockOne(registers[i].reg, readRegisters);
        if given == None {
          assert assembler.code + [] == assembler.code;
          return output, false;
        }
        output := output + [given.value];
      }
      LockEachNothing(View(), readRegisters);
      assert assembler.code + [] == assembler.code && output + [] == output;
      ok := true;
    }

    method ReadRegisters(registers: seq<Request>) returns (wanted: set<GuestReg>)
      ensures wanted == Reads(registers)
    {
      wanted := {};
      for i := 0 to |registers|
        invariant wanted == Reads(registers[..i])
      {
        assert registers[..i + 1] == registers[..i] + [registers[i]];
        if registers[i].reg != 0 && !registers[i].writeOnly {
          wanted := wanted + {registers[i].reg};
        }
      }
      assert registers[..|registers|] == registers;
    }

    /** One round of the loop that locks. */
    method LockOne(reg: GuestReg, readRegisters: set<GuestReg>) returns (given: Option<HReg>)
      requires Valid()
      modifies this`freeSlots, slots, registerToSlot, assembler`code
      ensures Valid()
      ensures var c := old(View());
              if reg == 0 then given == Some(XZR) && View() == c && assembler.code == old(assembler.code)
              else if c.toSlot[reg] != NONE then
                given == Some(CacheReg(c.toSlot[reg])) && View() == UseSlot(c, reg)
                  && assembler.code == old(assembler.code)
              else if c.free == [] then given == None && View() == c && assembler.code == old(assembler.code)
              else given == Some(CacheReg(c.free[|c.free| - 1])) && View() == AssignSlot(c, reg)
                   && assembler.code == old(assembler.code) + FillCode(c, reg, readRegisters)
    {
      if reg == 0 {
        return Some(XZR);
      }
      if registerToSlot[reg] != NONE {
        var slotId := registerToSlot[reg];
        slots[slotId] := slots[slotId].(locked := true, lastUse := programCounter);
        return Some(CacheReg(slotId));
      }
      var acquired := AcquireCacheSlot();
      if acquired == None {
        return None;
      }
      var slotId := acquired.value;
      slots[slotId] := slots[slotId].(reg := reg, locked := true, lastUse := programCounter);
      registerToSlot[reg] := slotId;
      if reg in readRegisters {
        assembler.Emit(LdrState(CacheReg(slotId), REGISTER_STATE, reg));
      }
      return Some(CacheReg(slotId));
    }

    /** False where the source's verify fails: the register is not one of the cache's. */
    method UnlockRegister(reg: HReg, makeDirty: bool) returns (ok: bool)
      requires Valid()
      modifies slots
      ensures Valid() && ok == MayUnlock(reg) && View() == Unlock(old(View()), reg, makeDirty)
    {
      if reg == XZR {
        return true;
      }
      var slotId := platformRegisterToSlot[reg];
      if slotId == NONE {
        return false;
      }
      slots[slotId] := slots[slotId].(locked := false, dirty := slots[slotId].dirty || makeDirty);
      return true;
    }

    method UnlockRegisters(regs: seq<HReg>) returns (ok: bool)
      requires Valid()
      modifies slots
      ensures Valid() && ok == MayUnlockAll(regs)
      ensures ok ==> View() == UnlockClean(old(View()), regs)
    {
      for i := 0 to |regs|
        invariant Valid() && MayUnlockAll(regs[i..]) == MayUnlockAll(regs)
        invariant UnlockClean(View(), regs[i..]) == UnlockClean(old(View()), regs)
      {
        assert regs[i..][1..] == regs[i + 1..];
        ok := UnlockRegister(regs[i], false);
        if !ok {
          return;
        }
      }
      return true;
    }

    method TakeStateSnapshot() returns (snapshot: Snapshot)
      requires Valid()
      ensures snapshot == TakeSnapshot(View())
    {
      snapshot := NO_SNAPSHOT;
      for i := 0 to CACHE_SIZE
        invariant forall k :: 0 <= k < i ==> snapshot[k] == TakeSnapshot(View())[k]
        invariant forall k :: i <= k < CACHE_SIZE ==> snapshot[k] == 0
      {
        if slots[i].reg != 0 && slots[i].dirty {
          snapshot := snapshot[i := slots[i].reg];
        }
      }
    }

    method FlushRegisters(snapshot: Snapshot)
      modifies assembler`code
      ensures assembler.code == old(assembler.code) + Flush(snapshot)
    {
      hide FlushFrom;
      for i := 0 to CACHE_SIZE
        invariant assembler.code + FlushFrom(snapshot, i) == old(assembler.code) + Flush(snapshot)
      {
        FlushUnfold(snapshot, i);
        if snapshot[i] != 0 {
          assembler.Emit(Spill(i, snapshot[i]));
        }
      }
      FlushNone(snapshot);
    }

    method FlushCurrentRegisters()
      requires Valid()
      modifies assembler`code
      ensures assembler.code == old(assembler.code) + Flush(TakeSnapshot(View()))
    {
      var snapshot := TakeStateSnapshot();
      FlushRegisters(snapshot);
    }

    /** False when a register is still locked. */
    method FinishInstruction() returns (ok: bool)
      requires Valid()
      modifies this`programCounter
      ensures Valid() && ok == NoneLocked(old(View()))
      ensures View() == if ok then Finish(old(View())) else old(View())
    {
      for i := 0 to CACHE_SIZE
        invariant forall k :: 0 <= k < i ==> !slots[k].locked
      {
        if slots[i].locked {
          return false;
        }
      }
      programCounter := (programCounter + 1) % TWO32;
      return true;
    }
  }

  lemma AvailableNone(slots: seq<Slot>)
    requires |slots| == CACHE_SIZE
    ensures AvailableFrom(slots, CACHE_SIZE) == []
  {
  }

  lemma FlushUnfold(s: Snapshot, i: nat)
    requires i < CACHE_SIZE
    ensures FlushFrom(s, i) == (if s[i] == 0 then [] else [Spill(i, s[i])]) + FlushFrom(s, i + 1)
  {
  }

  lemma FlushNone(s: Snapshot)
    ensures FlushFrom(s, CACHE_SIZE) == []
  {
  }

  lemma MissingNone(c: Cache)
    requires Shape(c)
    ensures Missing(c, []) == {}
  {
  }

  lemma MissingNext(c: Cache, reqs: seq<Request>, q: Request)
    requires Shape(c)
    ensures Missing(c, reqs + [q]) == Missing(c, reqs) + (if q.reg != 0 && c.toSlot[q.reg] == NONE then {q.reg} else {})
  {
    assert forall r :: r in reqs + [q] <==> r in reqs || r == q;
  }

  lemma MarkUnfold(c: Cache, reqs: seq<Request>)
    requires Shape(c) && reqs != []
    ensures var r := reqs[0].reg;
            MarkCached(c, reqs) == MarkCached(if r != 0 && c.toSlot[r] != NONE then LockSlot(c, r) else c, reqs[1..])
  {
  }

  lemma MarkNone(c: Cache)
    requires Shape(c)
    ensures MarkCached(c, []) == c
  {
  }

  lemma EvictLastUnfold(c: Cache, order: seq<SlotId>, count: nat)
    requires Shape(c) && 0 < count <= |order|
    ensures var v := order[|order| - 1];
            var e, rest := EvictLast(c, order, count), EvictLast(EvictSlot(c, v), order[..|order| - 1], count - 1);
            e.cache == rest.cache && e.code == EvictCode(c, v) + rest.code
  {
  }

  lemma EvictLastNothing(c: Cache, order: seq<SlotId>)
    requires Shape(c)
    ensures EvictLast(c, order, 0) == Emitted(c, [], true)
  {
  }

  lemma LockEachNothing(c: Cache, wanted: set<GuestReg>)
    requires Shape(c)
    ensures LockEach(c, [], wanted) == Locked(c, [], [], true)
  {
  }

  lemma LockEachCases(c: Cache, reqs: seq<Request>, wanted: set<GuestReg>)
    requires Shape(c) && reqs != []
    ensures var r := reqs[0].reg;
            var l := LockEach(c, reqs, wanted);
            if r == 0 then
              var rest := LockEach(c, reqs[1..], wanted);
              l.cache == rest.cache && l.ok == rest.ok && l.code == rest.code && l.regs == [XZR] + rest.regs
            else if c.toSlot[r] != NONE then
              var rest := LockEach(UseSlot(c, r), reqs[1..], wanted);
              l.cache == rest.cache && l.ok == rest.ok && l.code == rest.code
                && l.regs == [CacheReg(c.toSlot[r])] + rest.regs
            else if c.free == [] then l == Locked(c, [], [], false)
            else
              var rest := LockEach(AssignSlot(c, r), reqs[1..], wanted);
              l.cache == rest.cache && l.ok == rest.ok && l.code == FillCode(c, r, wanted) + rest.code
              && l.regs == [CacheReg(c.free[|c.free| - 1])] + rest.regs
  {
  }

  lemma HostsApart(i: SlotId)
    ensures forall r: HReg :: SlotOfHost(r) == i <==> r == CacheReg(i)
  {
  }

  lemma NewCacheIs(c: Cache)
    requires c.pc == 0 && |c.slots| == CACHE_SIZE && |c.toSlot| == 32 && |c.free| == CACHE_SIZE
    requires forall k :: 0 <= k < CACHE_SIZE ==> c.slots[k] == EMPTY && c.free[k] == k
    requires forall r :: 0 <= r < 32 ==> c.toSlot[r] == NONE
    ensures c == NewCache()
  {
  }
}
