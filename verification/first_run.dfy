/** Guests of one instruction. The first makes an environment call: the hypotheses of the whole-run theorems
    can be met, and its run ends. */
module FirstRun {
  import opened Words
  import opened Instructions
  import opened Memories
  import opened Interpreter
  import Translator
  import Simulation
  import Engine
  import opened Agreement
  import CodeBuffers
  import opened VirtualMachine
  import CodeLengths
  import WholeRuns

  const ZEROS: seq<Byte> := [0, 0, 0, 0, 0, 0, 0, 0, 0, 0, 0, 0, 0, 0, 0, 0]

  /** Four bytes readable and executable, eight readable, four neither. */
  const FLAGS: seq<Byte> := [5, 5, 5, 5, 1, 1, 1, 1, 1, 1, 1, 1, 0, 0, 0, 0]

  /** Sixteen bytes with one instruction at address zero. */
  function OneInstruction(w: Word32): Mem { Mem(16, StoreLE(ZEROS, 0, 4, w), FLAGS) }

  lemma Flags()
    ensures HasFlag(5, Flag(ExecuteAccess)) && HasFlag(1, Flag(ReadAccess)) && !HasFlag(0, Flag(ReadAccess))
    ensures !HasFlag(5, Flag(WriteAccess)) && !HasFlag(1, Flag(WriteAccess)) && !HasFlag(0, Flag(WriteAccess))
    ensures !HasFlag(1, Flag(ExecuteAccess)) && !HasFlag(0, Flag(ExecuteAccess))
  {
    ZeroGrantsNothing(1);
    ZeroGrantsNothing(2);
    ZeroGrantsNothing(4);
    assert And8(5, 4) == 4 by {
      AndZero(0, 5);
      assert Bitwise(AndOp, 1, 1, 6) == 1;
      assert Bitwise(AndOp, 2, 2, 7) == 2;
    }
    assert And8(1, 1) == 1 by { AndZero(0, 7); }
    assert And8(5, 2) == 0 by {
      AndZero(1, 6);
      assert Bitwise(AndOp, 2, 1, 7) == 0;
    }
    assert And8(1, 2) == 0 by { AndZero(1, 7); }
    assert And8(1, 4) == 0 by { AndZero(2, 7); }
  }

  lemma Exclusive(w: Word32)
    ensures ValidMem(OneInstruction(w)) && WriteXorExecute(OneInstruction(w))
  {
    hide HasFlag, Flag, StoreLE;
    Flags();
  }

  /** Only the first four bytes can be fetched from. */
  lemma OnlyFirst(w: Word32)
    ensures var m := OneInstruction(w);
            && ValidMem(m) && WriteXorExecute(m)
            && Fetch(m, 0) == Some(Decoded(w)) && Fetch(m, 4) == None && Fetch(m, 8) == None
  {
    hide HasFlag, Flag, StoreLE, LoadLE, Decoded, WriteXorExecute, Padded;
    var m := OneInstruction(w);
    Exclusive(w);
    Flags();
    LoadOfStore(ZEROS, 0, 4, w);
    Pow2Of64();
    assert w % Pow2(32) == w;
    assert Low32(w) == w;
    assert Permitted(m, 0, 4, ExecuteAccess);
    assert !HasFlag(m.perms[4], Flag(ExecuteAccess)) && !HasFlag(m.perms[8], Flag(ExecuteAccess));
  }

  /** Bytes of code buffer any block of such a guest takes at most. */
  const SHARE: nat := 2556

  /** A Vm about to run such a guest, with a new code buffer that has room for every block. */
  ghost predicate Starts(p: Params, v: Vm, w: Word32, blocks: nat) {
    && v.phase == Dispatching && v.machine.mem == OneInstruction(w) && v.machine.Pc() == 0 && v.machine.regs[0] == 0
    && CodeBuffers.ValidBuffer(v.buffer) && |v.buffer.offsets| == blocks
       && (forall b :: 0 <= b < blocks ==> v.buffer.offsets[b] == 0)
    && p.config.maxBlocks == blocks && 0 < blocks < 4 && p.blockBase == 0 && !p.config.skipPermissionChecks
    && v.buffer.nextFree == CodeBuffers.CODE_ALIGNMENT && v.buffer.size >= CodeBuffers.CODE_ALIGNMENT + blocks * SHARE
  }

  lemma {:induction false} NoneFilled(offsets: seq<Word>)
    requires forall k :: 0 <= k < |offsets| ==> offsets[k] == 0
    ensures Filled(offsets) == 0
  {
    if offsets != [] {
      NoneFilled(offsets[..|offsets| - 1]);
    }
  }

  lemma StartsPrepared(p: Params, v: Vm, w: Word32, blocks: nat)
    requires Starts(p, v, w, blocks)
    ensures Prepared(p, v) && CodeLengths.Room(v.buffer, v.machine.mem.size)
            && Simulation.InRange(p.config, v.machine.Pc())
  {
    hide Translator.Translate, OneInstruction, Padded, WriteXorExecute, Filled;
    OnlyFirst(w);
    SixteenBytes(w);
    NoneFilled(v.buffer.offsets);
    assert CodeLengths.BlockBytes(16) == SHARE;
  }

  lemma SixteenBytes(w: Word32)
    ensures OneInstruction(w).size == 16
  {
  }

  lemma OnlyState(s: Machine, k: nat, t: Machine)
    requires Reaches(s, k, t) && Engine.Sound(s) && !Step(s).Next?
    ensures t == s
  {
    hide Step;
  }

  /** Whatever the other registers hold, a Vm may be started on the guest that makes an environment call,
      and after two trips it has left with Ecall and the guest as it was. */
  lemma EcallRuns(p: Params, v: Vm)
    requires Starts(p, v, Encode(Ecall, 0, 0, 0, 0), 1)
    ensures WholeRuns.Started(p, v) && forall k: nat :: FaithfulFor(p.config, v.machine, k)
    ensures VmRun(p, v, 2) == Vm(v.machine, VmRun(p, v, 2).buffer, Done(SimpleExit(EcallExit)))
  {
    hide Step, Fetch, Translator.Translate, Padded, VmRun, WriteXorExecute, OneInstruction, Reaches, BlockCoherent,
      CodeLengths.Room, Encode, Decoded;
    var w, s := Encode(Ecall, 0, 0, 0, 0), v.machine;
    OnlyFirst(w);
    StartsPrepared(p, v, w, 1);
    DecodeEncode(Ecall, 0, 0, 0, 0);
    StepIsExecute(s, Decoded(w));
    forall j: nat, t: Machine | Reaches(s, j, t) && Engine.Sound(t) && Fetch(t.mem, t.Pc()).Some?
      ensures Faithful(p.config, Fetch(t.mem, t.Pc()).value, t)
    {
      OnlyState(s, j, t);
    }
    ReachesNothing(s, s);
    WholeRuns.RunIsComplete(p, v, 0, s);
  }
}
