/** The way into translated code and back: which registers are saved, and that all come back. */
module Trampolines {
  import opened Words
  import opened Memories
  import opened HostMachine

  const FILLER: HReg := 30
  const TRAMPOLINE_BLOCK: HReg := A_REG

  /** Fields of TrampolineBlock, in order. */
  const ENTRYPOINT: nat := 7
  const EXIT_REASON_FIELD: nat := 8
  const EXIT_PC_FIELD: nat := 9

  datatype TrampolineInstr =
    | Copy(d: HReg, n: HReg)
    | Push(a: HReg, b: HReg)                         // stp a, b, [sp, -16]!
    | Pop(a: HReg, b: HReg)                          // ldp a, b, [sp], 16
    | LoadField(d: HReg, base: HReg, field: nat)
    | StoreField(n: HReg, base: HReg, field: nat)

  type TrampolineCode = seq<TrampolineInstr>

  /** Registers, stack pointer, the stack, and the trampoline block at its address. */
  datatype Caller = Caller(r: HRegs, sp: int, stack: map<int, Word>, block: seq<Word>, at: Word)

  // ----- RegisterSaver -----

  datatype Saver = Saver(pairs: seq<(HReg, HReg)>, added: set<HReg>)

  predicate Reserved(r: HReg) { r == 18 || r == 29 || r == XZR }

  predicate CalleeSaved(r: HReg) { 19 <= r <= 28 }

  /** Joins the last pair if its second place is still a filler. */
  function AddAlways(s: Saver, r: HReg): Saver {
    var last := |s.pairs| - 1;
    if r in s.added then s
    else if s.pairs != [] && s.pairs[last].1 == FILLER then Saver(s.pairs[last := (s.pairs[last].0, r)], s.added + {r})
    else Saver(s.pairs + [(r, FILLER)], s.added + {r})
  }

  function AddOne(s: Saver, r: HReg): Saver {
    if CalleeSaved(r) then AddAlways(s, r) else s
  }

  /** Requests in the order of the calls: add_always or add, of one register. */
  datatype Adding = Always(r: HReg) | IfCalleeSaved(r: HReg)

  function AddEach(s: Saver, adds: seq<Adding>): Saver
    decreases |adds|
  {
    if adds == [] then s
    else AddEach(match adds[0] case Always(r) => AddAlways(s, r) case IfCalleeSaved(r) => AddOne(s, r), adds[1..])
  }

  /** The constructor adds the return address. */
  const NEW_SAVER: Saver := AddAlways(Saver([], {}), 30)

  predicate Saves(pairs: seq<(HReg, HReg)>, r: HReg) {
    exists k :: 0 <= k < |pairs| && (pairs[k].0 == r || pairs[k].1 == r)
  }

  /** Each register added stands in exactly one place, except that a filler may stand in the very last. */
  ghost predicate ValidSaver(s: Saver) {
    && s.pairs != [] && s.pairs[0].0 == FILLER && FILLER in s.added
    && (forall r :: r in s.added ==> Saves(s.pairs, r))
    && (forall k :: 0 <= k < |s.pairs| ==> s.pairs[k].0 in s.added && s.pairs[k].1 in s.added)
    && (forall k :: 0 <= k < |s.pairs| ==> s.pairs[k].1 == FILLER ==> k == |s.pairs| - 1)
    && (forall j, k :: 0 <= j < k < |s.pairs| ==> s.pairs[j].0 != s.pairs[k].0 && s.pairs[j].1 != s.pairs[k].1)
    && (forall j, k :: 0 <= j < |s.pairs| && 0 <= k < |s.pairs| && s.pairs[j].0 == s.pairs[k].1 ==>
          s.pairs[k].1 == FILLER)
  }

  lemma AddAlwaysValid(s: Saver, r: HReg)
    requires ValidSaver(s)
    ensures ValidSaver(AddAlways(s, r)) && AddAlways(s, r).added == s.added + {r}
  {
    hide Saves;
    var t := AddAlways(s, r);
    if r !in s.added {
      assert Saves(t.pairs, r) by { AddAlwaysSaves(s, r, r); }
      forall q | q in s.added
        ensures Saves(t.pairs, q)
      {
        AddAlwaysSaves(s, r, q);
      }
      NotSavedYet(s, r);
    }
  }

  lemma NotSavedYet(s: Saver, r: HReg)
    requires ValidSaver(s) && r !in s.added
    ensures r != FILLER && forall k :: 0 <= k < |s.pairs| ==> s.pairs[k].0 != r && s.pairs[k].1 != r
  {
  }

  lemma AddAlwaysSaves(s: Saver, r: HReg, q: HReg)
    requires s.pairs != [] && s.pairs[0].0 == FILLER && r !in s.added && (q == r || Saves(s.pairs, q))
    ensures Saves(AddAlways(s, r).pairs, q)
  {
    var t := AddAlways(s, r);
    if q == r {
      assert t.pairs[|t.pairs| - 1].0 == r || t.pairs[|t.pairs| - 1].1 == r;
    } else if q == FILLER {
      assert t.pairs[0].0 == FILLER;
    } else {
      var k :| 0 <= k < |s.pairs| && (s.pairs[k].0 == q || s.pairs[k].1 == q);
      assert t.pairs[k].0 == q || t.pairs[k].1 == q;
    }
  }

  lemma NewSaverValid()
    ensures ValidSaver(NEW_SAVER) && NEW_SAVER == Saver([(30, 30)], {30})
  {
    assert NEW_SAVER.pairs[0].0 == 30;
  }

  /** For every sequence of add calls: each register asked for is saved, once; only the last pair may
      hold the filler. */
  lemma {:induction false} AddEachValid(s: Saver, adds: seq<Adding>)
    requires ValidSaver(s)
    ensures var t := AddEach(s, adds);
            ValidSaver(t) && s.added <= t.added
            && (forall a :: a in adds && (a.Always? || CalleeSaved(a.r)) ==> a.r in t.added)
            && (forall r :: r in t.added ==>
                  r in s.added || Always(r) in adds || (CalleeSaved(r) && IfCalleeSaved(r) in adds))
    decreases |adds|
  {
    if adds != [] {
      hide ValidSaver, AddAlways, AddEach;
      var u := match adds[0] case Always(r) => AddAlways(s, r) case IfCalleeSaved(r) => AddOne(s, r);
      AddAlwaysValid(s, adds[0].r);
      AddEachValid(u, adds[1..]);
      AddEachUnfold(s, adds);
      assert forall a :: a in adds <==> a == adds[0] || a in adds[1..];
    } else {
      AddEachNothing(s);
    }
  }

  lemma AddEachUnfold(s: Saver, adds: seq<Adding>)
    requires adds != []
    ensures AddEach(s, adds)
         == AddEach(match adds[0] case Always(r) => AddAlways(s, r) case IfCalleeSaved(r) => AddOne(s, r), adds[1..])
  {
    hide AddAlways;
  }

  lemma AddEachNothing(s: Saver)
    ensures AddEach(s, []) == s
  {
  }

  // ----- save and restore -----

  function SaveCode(pairs: seq<(HReg, HReg)>): TrampolineCode {
    if pairs == [] then [] else [Push(pairs[0].0, pairs[0].1)] + SaveCode(pairs[1..])
  }

  function RestoreCode(pairs: seq<(HReg, HReg)>): TrampolineCode {
    if pairs == [] then [] else RestoreCode(pairs[1..]) + [Pop(pairs[0].0, pairs[0].1)]
  }

  function Apply(i: TrampolineInstr, s: Caller): Option<Caller> {
    match i
    case Copy(d, n) => Some(s.(r := s.r[d := s.r[n]]))
    case Push(a, b) => Some(s.(sp := s.sp - 16, stack := s.stack[s.sp - 16 := s.r[a]][s.sp - 8 := s.r[b]]))
    case Pop(a, b) =>
      if s.sp in s.stack && s.sp + 8 in s.stack
      then Some(s.(sp := s.sp + 16, r := s.r[a := s.stack[s.sp]][b := s.stack[s.sp + 8]])) else None
    case LoadField(d, base, field) =>
      if s.r[base] == s.at && field < |s.block| then Some(s.(r := s.r[d := s.block[field]])) else None
    case StoreField(n, base, field) =>
      if s.r[base] == s.at && field < |s.block| then Some(s.(block := s.block[field := s.r[n]])) else None
  }

  function ApplyAll(code: TrampolineCode, s: Caller): Option<Caller>
    decreases |code|
  {
    if code == [] then Some(s)
    else match Apply(code[0], s) case Some(t) => ApplyAll(code[1..], t) case None => None
  }

  lemma {:induction false} ApplyAppend(c: TrampolineCode, d: TrampolineCode, s: Caller)
    ensures ApplyAll(c + d, s) == match ApplyAll(c, s) case Some(t) => ApplyAll(d, t) case None => None
    decreases |c|
  {
    hide Apply;
    if c == [] {
      assert c + d == d;
    } else {
      assert (c + d)[0] == c[0] && (c + d)[1..] == c[1..] + d;
      match Apply(c[0], s)
      case Some(t) => ApplyAppend(c[1..], d, t);
      case None =>
    }
  }

  lemma ApplyOne(i: TrampolineInstr, s: Caller)
    ensures ApplyAll([i], s) == Apply(i, s)
  {
    assert [i][1..] == [];
  }

  /** A body that leaves the stack as it found it: free to use what is below, and every register. */
  ghost predicate Balanced(s: Caller, t: Caller) {
    t.sp == s.sp && t.at == s.at && KeepsStack(s, t, s.sp)
  }

  ghost predicate KeepsStack(s: Caller, t: Caller, from: int) {
    forall a :: a >= from && a in s.stack ==> a in t.stack && t.stack[a] == s.stack[a]
  }

  lemma {:induction false} SaveIs(pairs: seq<(HReg, HReg)>, s: Caller)
    ensures ApplyAll(SaveCode(pairs), s).Some?
    ensures var t := ApplyAll(SaveCode(pairs), s).value;
            t.r == s.r && t.sp == s.sp - 16 * |pairs| && t.block == s.block && t.at == s.at && KeepsStack(s, t, s.sp)
    decreases |pairs|
  {
    if pairs != [] {
      hide SaveCode, ApplyAll;
      var push := Push(pairs[0].0, pairs[0].1);
      var t := Apply(push, s).value;
      SaveUnfold(pairs, s);
      SaveIs(pairs[1..], t);
    } else {
      ApplyNothing(s);
    }
  }

  lemma ApplyNothing(s: Caller)
    ensures ApplyAll(SaveCode([]), s) == Some(s) && ApplyAll(RestoreCode([]), s) == Some(s)
  {
  }

  lemma SaveUnfold(pairs: seq<(HReg, HReg)>, s: Caller)
    requires pairs != []
    ensures ApplyAll(SaveCode(pairs), s) == ApplyAll(SaveCode(pairs[1..]), Apply(Push(pairs[0].0, pairs[0].1), s).value)
  {
    ApplyOne(Push(pairs[0].0, pairs[0].1), s);
    ApplyAppend([Push(pairs[0].0, pairs[0].1)], SaveCode(pairs[1..]), s);
  }

  /** Save, any balanced body, restore: every saved register and the stack pointer are as before, every
      other register is as the body left it. */
  lemma {:induction false} SaveRestore(pairs: seq<(HReg, HReg)>, s: Caller, saved: Caller, body: Caller)
    requires ApplyAll(SaveCode(pairs), s) == Some(saved) && Balanced(saved, body)
    ensures ApplyAll(RestoreCode(pairs), body).Some?
    ensures var t := ApplyAll(RestoreCode(pairs), body).value;
            t.sp == s.sp && t.at == s.at && t.block == body.block && t.stack == body.stack && KeepsStack(s, t, s.sp)
            && (forall r: HReg :: Saves(pairs, r) ==> t.r[r] == s.r[r])
            && (forall r: HReg :: !Saves(pairs, r) ==> t.r[r] == body.r[r])
    decreases |pairs|
  {
    if pairs == [] {
      ApplyNothing(s);
      ApplyNothing(body);
    } else {
      hide SaveCode, RestoreCode, ApplyAll, Saves;
      var p, rest := pairs[0], pairs[1..];
      var pushed := Apply(Push(p.0, p.1), s).value;
      SaveUnfold(pairs, s);
      SaveRestore(rest, pushed, saved, body);
      var inner := ApplyAll(RestoreCode(rest), body).value;
      RestoreUnfold(pairs, body);
      assert pushed.stack[pushed.sp] == s.r[p.0] && pushed.stack[pushed.sp + 8] == s.r[p.1];
      forall r: HReg
        ensures Saves(pairs, r) <==> r == p.0 || r == p.1 || Saves(rest, r)
      {
        SavesFirst(pairs, r);
      }
    }
  }

  lemma SavesFirst(pairs: seq<(HReg, HReg)>, r: HReg)
    requires pairs != []
    ensures Saves(pairs, r) <==> r == pairs[0].0 || r == pairs[0].1 || Saves(pairs[1..], r)
  {
    if Saves(pairs, r) {
      var k :| 0 <= k < |pairs| && (pairs[k].0 == r || pairs[k].1 == r);
      if k > 0 {
        assert pairs[1..][k - 1] == pairs[k];
      }
    }
    if Saves(pairs[1..], r) {
      var k :| 0 <= k < |pairs[1..]| && (pairs[1..][k].0 == r || pairs[1..][k].1 == r);
      assert pairs[k + 1].0 == r || pairs[k + 1].1 == r;
    }
  }

  lemma RestoreUnfold(pairs: seq<(HReg, HReg)>, s: Caller)
    requires pairs != [] && ApplyAll(RestoreCode(pairs[1..]), s).Some?
    ensures ApplyAll(RestoreCode(pairs), s) == Apply(Pop(pairs[0].0, pairs[0].1),
            ApplyAll(RestoreCode(pairs[1..]), s).value)
  {
    ApplyAppend(RestoreCode(pairs[1..]), [Pop(pairs[0].0, pairs[0].1)], s);
    ApplyOne(Pop(pairs[0].0, pairs[0].1), ApplyAll(RestoreCode(pairs[1..]), s).value);
  }

  // ----- generate_trampoline -----

  /** The registers the trampoline asks to have saved, in order. */
  const ADDED: seq<Adding> := [
    IfCalleeSaved(REGISTER_STATE), IfCalleeSaved(MEMORY_BASE), IfCalleeSaved(PERMISSIONS_BASE),
      IfCalleeSaved(MEMORY_SIZE),
    IfCalleeSaved(BLOCK_BASE), IfCalleeSaved(MAX_EXECUTABLE_PC), IfCalleeSaved(CODE_BASE), IfCalleeSaved(BASE_PC),
    IfCalleeSaved(A_REG), IfCalleeSaved(B_REG), IfCalleeSaved(C_REG),
    IfCalleeSaved(EXIT_REASON), IfCalleeSaved(EXIT_PC), Always(TRAMPOLINE_BLOCK),
    IfCalleeSaved(11), IfCalleeSaved(12), IfCalleeSaved(13), IfCalleeSaved(14), IfCalleeSaved(15), IfCalleeSaved(16),
      IfCalleeSaved(17),
    IfCalleeSaved(19), IfCalleeSaved(20), IfCalleeSaved(21), IfCalleeSaved(22), IfCalleeSaved(23), IfCalleeSaved(24),
    IfCalleeSaved(25), IfCalleeSaved(26), IfCalleeSaved(27), IfCalleeSaved(28)]

  const SAVER: Saver := AddEach(NEW_SAVER, ADDED)

  function Loads(): TrampolineCode {
    [LoadField(REGISTER_STATE, TRAMPOLINE_BLOCK, 0), LoadField(MEMORY_BASE, TRAMPOLINE_BLOCK, 1),
     LoadField(PERMISSIONS_BASE, TRAMPOLINE_BLOCK, 2), LoadField(MEMORY_SIZE, TRAMPOLINE_BLOCK, 3),
     LoadField(BLOCK_BASE, TRAMPOLINE_BLOCK, 4), LoadField(MAX_EXECUTABLE_PC, TRAMPOLINE_BLOCK, 5),
     LoadField(CODE_BASE, TRAMPOLINE_BLOCK, 6), LoadField(TRAMPOLINE_BLOCK, TRAMPOLINE_BLOCK, ENTRYPOINT)]
  }

  /** Up to the call of the translated code. */
  function EnterCode(pairs: seq<(HReg, HReg)>): TrampolineCode {
    [Copy(TRAMPOLINE_BLOCK, 0)] + (SaveCode(pairs) + Loads())
  }

  /** From where it returns to. */
  function LeaveCode(pairs: seq<(HReg, HReg)>): TrampolineCode {
    RestoreCode(pairs) + [StoreField(EXIT_REASON, TRAMPOLINE_BLOCK, EXIT_REASON_FIELD),
      StoreField(EXIT_PC, TRAMPOLINE_BLOCK, EXIT_PC_FIELD)]
  }

  /** Every callee-saved register, the return address and the block pointer are saved; the registers
      the exit comes back in are not. */
  lemma TrampolineSaves(r: HReg)
    ensures ValidSaver(SAVER)
    ensures Saves(SAVER.pairs, r) <==> CalleeSaved(r) || r == 30 || r == TRAMPOLINE_BLOCK
  {
    hide AddEach, ValidSaver, Saves, ADDED, NEW_SAVER;
    NewSaverValid();
    AddEachValid(NEW_SAVER, ADDED);
    SavedIsAdded(SAVER, r);
    AddedIs(r);
    AddedIs(TRAMPOLINE_BLOCK);
  }

  lemma AddedIs(r: HReg)
    ensures Always(r) in ADDED <==> r == TRAMPOLINE_BLOCK
    ensures CalleeSaved(r) ==> IfCalleeSaved(r) in ADDED
  {
    assert ADDED[13] == Always(TRAMPOLINE_BLOCK);
    if CalleeSaved(r) {
      assert ADDED[r + 2] == IfCalleeSaved(r);
    }
  }

  lemma SavedIsAdded(s: Saver, r: HReg)
    requires ValidSaver(s)
    ensures Saves(s.pairs, r) <==> r in s.added
  {
  }

  lemma LoadsMeaning(s: Caller)
    requires s.r[TRAMPOLINE_BLOCK] == s.at && |s.block| == 10
    ensures ApplyAll(Loads(), s).Some?
    ensures var t := ApplyAll(Loads(), s).value;
            t.sp == s.sp && t.stack == s.stack && t.block == s.block && t.at == s.at
            && (forall f: nat :: f < ENTRYPOINT ==> t.r[f] == s.block[f])
               && t.r[TRAMPOLINE_BLOCK] == s.block[ENTRYPOINT]
            && forall r: HReg :: r >= ENTRYPOINT && r != TRAMPOLINE_BLOCK ==> t.r[r] == s.r[r]
  {
    hide ApplyAll;
    var l := Loads();
    var t1 := Apply(l[0], s).value;
    var t2 := Apply(l[1], t1).value;
    var t3 := Apply(l[2], t2).value;
    var t4 := Apply(l[3], t3).value;
    var t5 := Apply(l[4], t4).value;
    var t6 := Apply(l[5], t5).value;
    var t7 := Apply(l[6], t6).value;
    ApplyFirst(l, s);
    ApplyFirst(l[1..], t1);
    ApplyFirst(l[2..], t2);
    ApplyFirst(l[3..], t3);
    ApplyFirst(l[4..], t4);
    ApplyFirst(l[5..], t5);
    ApplyFirst(l[6..], t6);
    assert l[7..] == [l[7]];
    ApplyOne(l[7], t7);
    assert t7.r == s.r[0 := s.block[0]][1 := s.block[1]][2 := s.block[2]][3 := s.block[3]][4 := s.block[4]][5 :=
      s.block[5]][6 := s.block[6]];
  }

  lemma ApplyFirst(c: TrampolineCode, s: Caller)
    requires c != [] && Apply(c[0], s).Some?
    ensures ApplyAll(c, s) == ApplyAll(c[1..], Apply(c[0], s).value)
  {
  }

  /** Called with the block's address in X0, the trampoline calls the entry point with every field in the
      register translated code expects it in; and when that has returned, with the stack balanced,
      whatever it did to registers, the exit reason and pc are in the block, and the callee-saved
      registers, the return address and the stack pointer are as they were. */
  lemma TrampolineMeaning(s: Caller, body: Caller) returns (called: Caller, t: Caller)
    requires s.r[0] == s.at && |s.block| == 10
    ensures ApplyAll(EnterCode(SAVER.pairs), s) == Some(called)
    ensures (forall f: nat :: f < ENTRYPOINT ==> called.r[f] == s.block[f])
            && called.r[TRAMPOLINE_BLOCK] == s.block[ENTRYPOINT]
    ensures forall r: HReg :: r >= ENTRYPOINT && r != TRAMPOLINE_BLOCK ==> called.r[r] == s.r[r]
    ensures called.block == s.block && called.at == s.at
    ensures Balanced(called, body) && body.block == called.block ==>
              && ApplyAll(LeaveCode(SAVER.pairs), body) == Some(t)
              && t.block == s.block[EXIT_REASON_FIELD := body.r[EXIT_REASON]][EXIT_PC_FIELD := body.r[EXIT_PC]]
              && t.sp == s.sp && KeepsStack(s, t, s.sp)
              && (forall r: HReg :: CalleeSaved(r) || r == 30 ==> t.r[r] == s.r[r])
              && (forall r: HReg :: !CalleeSaved(r) && r != 30 && r != TRAMPOLINE_BLOCK ==> t.r[r] == body.r[r])
  {
    hide SaveCode, RestoreCode, Loads, ApplyAll, Saves, AddEach, ValidSaver, SAVER;
    var pairs := SAVER.pairs;
    var copied := Apply(Copy(TRAMPOLINE_BLOCK, 0), s).value;
    ApplyOne(Copy(TRAMPOLINE_BLOCK, 0), s);
    ApplyAppend([Copy(TRAMPOLINE_BLOCK, 0)], SaveCode(pairs) + Loads(), s);
    SaveIs(pairs, copied);
    var saved := ApplyAll(SaveCode(pairs), copied).value;
    ApplyAppend(SaveCode(pairs), Loads(), copied);
    LoadsMeaning(saved);
    called := ApplyAll(Loads(), saved).value;
    t := body;
    if Balanced(called, body) && body.block == called.block {
      SaveRestore(pairs, copied, saved, body);
      var restored := ApplyAll(RestoreCode(pairs), body).value;
      forall r: HReg {
        TrampolineSaves(r);
      }
      ExitStores(pairs, body, restored);
      t := ApplyAll(LeaveCode(pairs), body).value;
    }
  }

  lemma ExitStores(pairs: seq<(HReg, HReg)>, body: Caller, restored: Caller)
    requires ApplyAll(RestoreCode(pairs), body) == Some(restored) && restored.r[TRAMPOLINE_BLOCK] == restored.at
             && |restored.block| == 10
    ensures ApplyAll(LeaveCode(pairs), body)
         == Some(restored.(block := restored.block[EXIT_REASON_FIELD := restored.r[EXIT_REASON]][EXIT_PC_FIELD :=
           restored.r[EXIT_PC]]))
  {
    hide RestoreCode, ApplyAll;
    var first, second := StoreField(EXIT_REASON, TRAMPOLINE_BLOCK, EXIT_REASON_FIELD),
      StoreField(EXIT_PC, TRAMPOLINE_BLOCK, EXIT_PC_FIELD);
    ApplyAppend(RestoreCode(pairs), [first, second], body);
    ApplyFirst([first, second], restored);
    assert [first, second][1..] == [second];
    ApplyOne(second, Apply(first, restored).value);
  }

  // ----- the RegisterSaver object, and the trampoline's generator -----

  class RegisterSaver {
    var code: TrampolineCode
    var pairs: seq<(HReg, HReg)>
    var alreadyAdded: set<HReg>

    ghost function View(): Saver
      reads this
    {
      Saver(pairs, alreadyAdded)
    }

    constructor ()
      ensures View() == NEW_SAVER && code == []
    {
      code, pairs, alreadyAdded := [], [], {};
      new;
      var _ := AddAlwaysOne(30);
    }

    /** False where the source's verify fails. */
    method AddAlwaysOne(reg: HReg) returns (ok: bool)
      modifies this
      ensures ok == !Reserved(reg) && code == old(code)
      ensures View() == if ok then AddAlways(old(View()), reg) else old(View())
    {
      if Reserved(reg) {
        return false;
      }
      if reg in alreadyAdded {
        return true;
      }
      alreadyAdded := alreadyAdded + {reg};
      if pairs != [] {
        var last := |pairs| - 1;
        if pairs[last].1 == FILLER {
          pairs := pairs[last := (pairs[last].0, reg)];
          return true;
        }
      }
      pairs := pairs + [(reg, FILLER)];
      return true;
    }

    method AddIfCalleeSaved(reg: HReg) returns (ok: bool)
      modifies this
      ensures ok == !Reserved(reg) && code == old(code)
      ensures View() == if ok then AddOne(old(View()), reg) else old(View())
    {
      if Reserved(reg) {
        return false;
      }
      if CalleeSaved(reg) {
        var _ := AddAlwaysOne(reg);
      }
      return true;
    }

    method Save()
      modifies this`code
      ensures code == old(code) + SaveCode(pairs)
    {
      for i := 0 to |pairs|
        invariant code + SaveCode(pairs[i..]) == old(code) + SaveCode(pairs)
      {
        code := code + [Push(pairs[i].0, pairs[i].1)];
        assert pairs[i..][1..] == pairs[i + 1..];
      }
    }

    method Restore()
      modifies this`code
      ensures code == old(code) + RestoreCode(pairs)
    {
      for i := |pairs| downto 0
        invariant code == old(code) + RestoreCode(pairs[i..])
      {
        code := code + [Pop(pairs[i].0, pairs[i].1)];
        assert pairs[i..][1..] == pairs[i + 1..];
      }
    }
  }

  /** generate_trampoline, with the call left out between the two halves. */
  method GenerateTrampoline() returns (before: TrampolineCode, after: TrampolineCode)
    ensures before == EnterCode(SAVER.pairs) && after == LeaveCode(SAVER.pairs)
  {
    var saver := new RegisterSaver();
    for i := 0 to |ADDED|
      invariant saver.code == [] && AddEach(saver.View(), ADDED[i..]) == SAVER && fresh(saver)
    {
      var a := ADDED[i];
      NoneReserved(i);
      assert ADDED[i..][1..] == ADDED[i + 1..];
      match a
      case Always(r) => var _ := saver.AddAlwaysOne(r);
      case IfCalleeSaved(r) => var _ := saver.AddIfCalleeSaved(r);
    }
    saver.code := [Copy(TRAMPOLINE_BLOCK, 0)];
    saver.Save();
    before := saver.code + Loads();
    saver.code := [];
    saver.Restore();
    after := saver.code
      + [StoreField(EXIT_REASON, TRAMPOLINE_BLOCK, EXIT_REASON_FIELD),
        StoreField(EXIT_PC, TRAMPOLINE_BLOCK, EXIT_PC_FIELD)];
  }

  lemma NoneReserved(i: nat)
    requires i < |ADDED|
    ensures !Reserved(ADDED[i].r)
  {
  }
}
