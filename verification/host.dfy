/** The target of translation: straight-line host code with forward branches, and what it does. */
module HostMachine {
  import opened Words
  import opened Memories
  import opened Interpreter

  /** X0 to X30; 31 is the zero register, except where an instruction takes the stack pointer there. */
  type HReg = r: nat | r < 32
  const XZR: HReg := 31

  // RegisterAllocation
  const EXIT_REASON: HReg := 0
  const EXIT_PC: HReg := 1
  const REGISTER_STATE: HReg := 0
  const MEMORY_BASE: HReg := 1
  const PERMISSIONS_BASE: HReg := 2
  const MEMORY_SIZE: HReg := 3
  const BLOCK_BASE: HReg := 4
  const MAX_EXECUTABLE_PC: HReg := 5
  const CODE_BASE: HReg := 6
  const BASE_PC: HReg := 7
  const A_REG: HReg := 8
  const B_REG: HReg := 9
  const C_REG: HReg := 10

  // registers translated code has no business with: the platform's, the frame pointer, the return address
  const PLATFORM: HReg := 18
  const FRAME: HReg := 29
  const RETURN: HReg := 30

  datatype Condition = Equal | NotEqual | Less | GreaterEqual | UnsignedLess | UnsignedGreaterEqual

  datatype AluOp =
    | AddX | SubX | EorX | OrrX | AndX | LslX | LsrX | AsrX | MulX | SdivX | UdivX
    | AddW | SubW | AndW | LslW | LsrW | AsrW | MulW | SdivW | UdivW

  type Label = nat

  datatype HInstr =
    | MovImm(d: HReg, value: Word)
    | MovReg(d: HReg, n: HReg)
    | AddImm(d: HReg, n: HReg, imm: int)
    | BitImm(bitOp: BitOp, d: HReg, n: HReg, imm: int)
    | Alu(op: AluOp, d: HReg, n: HReg, m: HReg)
    | AluShift(op: AluOp, d: HReg, n: HReg, shamt: nat)
    | Msub(wide: bool, d: HReg, n: HReg, m: HReg, a: HReg)
    | Sxtw(d: HReg, n: HReg)
    | CmpReg(wide: bool, n: HReg, m: HReg)
    | CmpImm(n: HReg, imm: int)
    | TstImm(n: HReg, mask: int)
    | Cset(d: HReg, condition: Condition)
    | LdrState(d: HReg, base: HReg, slot: nat)
    | StrState(n: HReg, base: HReg, slot: nat)
    | LdrPerms(width: nat, d: HReg, base: HReg, index: HReg)
    | LdrMem(width: nat, signed: bool, d: HReg, base: HReg, index: HReg)
    | StrMem(width: nat, n: HReg, base: HReg, index: HReg)
    | LdrBlock(d: HReg, base: HReg, index: HReg)
    | LdarBlock(d: HReg, n: HReg)
    | Bind(target: Label)
    | BCond(condition: Condition, target: Label)
    | Cbz(n: HReg, target: Label)
    | Br(n: HReg)
    | Ret

  type Code = seq<HInstr>

  type HRegs = s: seq<Word> | |s| == 32 witness seq(32, _ => 0)

  /** flags holds the operands of the last comparison, which is what the conditions read. */
  datatype Host = Host(r: HRegs, flags: (Word, Word), table: Registers, mem: Mem)

  /** What the trampoline passes in: where each array lives, where to return to, what the reserved
      registers hold, and the block translation table. */
  datatype Env = Env(statePtr: Word, memBase: Word, permBase: Word, blockBase: Word, codeBase: Word,
                     returnTo: Word, frame: Word, platform: Word, offsets: seq<Word>)

  function Get(h: Host, n: HReg): Word {
    if n == XZR then 0 else h.r[n]
  }

  function Put(h: Host, d: HReg, v: Word): Host {
    if d == XZR then h else h.(r := h.r[d := v])
  }

  function Holds(c: Condition, f: (Word, Word)): bool {
    match c
    case Equal => f.0 == f.1
    case NotEqual => f.0 != f.1
    case Less => Signed(f.0) < Signed(f.1)
    case GreaterEqual => Signed(f.0) >= Signed(f.1)
    case UnsignedLess => f.0 < f.1
    case UnsignedGreaterEqual => f.0 >= f.1
  }

  /** Division by zero gives zero, and the quotient wraps, on this machine. */
  function AluValue(op: AluOp, a: Word, b: Word): Word {
    match op
    case AddX => Wrap(a + b)
    case SubX => Wrap(a - b)
    case EorX => Bits(XorOp, a, b)
    case OrrX => Bits(OrOp, a, b)
    case AndX => Bits(AndOp, a, b)
    case LslX => ShiftLeft(a, b % 64)
    case LsrX => ShiftRight(a, b % 64)
    case AsrX => ArithmeticShiftRight(Signed(a), b % 64)
    case MulX => Wrap(a * b)
    case SdivX => if b == 0 then 0 else Wrap(TruncDiv(Signed(a), Signed(b)))
    case UdivX => if b == 0 then 0 else Wrap(a / b)
    case AddW => Low32(Low32(a) + Low32(b))
    case SubW => Low32(Low32(a) - Low32(b))
    case AndW => Low32(Bits(AndOp, a, b))
    case LslW => Low32(ShiftLeft(Low32(a), b % 32))
    case LsrW => Low32(ShiftRight(Low32(a), b % 32))
    case AsrW => Low32(ArithmeticShiftRight(Signed32(a), b % 32))
    case MulW => Low32(Low32(a) * Low32(b))
    case SdivW => if Low32(b) == 0 then 0 else Low32(TruncDiv(Signed32(a), Signed32(b)))
    case UdivW => if Low32(b) == 0 then 0 else Low32(Low32(a) / Low32(b))
  }

  function BlockEntry(env: Env, offset: int, h: Host, d: HReg): Option<Host> {
    if 0 <= offset && offset % 4 == 0 && offset / 4 < |env.offsets| then Some(Put(h, d, env.offsets[offset / 4]))
      else None
  }

  /** One instruction that does not transfer control. None is a fault on the host: a base register
      that no longer points where it should, an index outside its array, or a stack pointer operand. */
  function Exec(env: Env, i: HInstr, h: Host): Option<Host> {
    match i
    case MovImm(d, v) => Some(Put(h, d, v))
    case MovReg(d, n) => Some(Put(h, d, Get(h, n)))
    case AddImm(d, n, imm) => if d == XZR || n == XZR then None else Some(Put(h, d, Wrap(Get(h, n) + imm)))
    case BitImm(op, d, n, imm) => if d == XZR then None else Some(Put(h, d, Bits(op, Get(h, n), Wrap(imm))))
    case Alu(op, d, n, m) => Some(Put(h, d, AluValue(op, Get(h, n), Get(h, m))))
    case AluShift(op, d, n, s) => Some(Put(h, d, AluValue(op, Get(h, n), Wrap(s))))
    case Msub(wide, d, n, m, a) =>
      var v := Get(h, a) - Get(h, n) * Get(h, m);
      Some(Put(h, d, if wide then Wrap(v) else Low32(v)))
    case Sxtw(d, n) => Some(Put(h, d, SignExtend32(Get(h, n))))
    case CmpReg(wide, n, m) =>
      Some(h.(flags := if wide then (Get(h, n), Get(h, m)) else (Low32(Get(h, n)), Low32(Get(h, m)))))
    case CmpImm(n, imm) => if n == XZR then None else Some(h.(flags := (Get(h, n), Wrap(imm))))
    case TstImm(n, mask) => Some(h.(flags := (Bits(AndOp, Get(h, n), Wrap(mask)), 0)))
    case Cset(d, c) => Some(Put(h, d, BoolWord(Holds(c, h.flags))))
    case LdrState(d, base, slot) =>
      if Get(h, base) == env.statePtr && slot < 33 then Some(Put(h, d, h.table[slot])) else None
    case StrState(n, base, slot) =>
      if Get(h, base) == env.statePtr && slot < 33 then Some(h.(table := h.table[slot := Get(h, n)])) else None
    case LdrPerms(w, d, base, index) =>
      if Get(h, base) == env.permBase && Get(h, index) + w <= |h.mem.perms|
      then Some(Put(h, d, Wrap(LoadLE(h.mem.perms, Get(h, index), w)))) else None
    case LdrMem(w, signed, d, base, index) =>
      if Get(h, base) == env.memBase && Get(h, index) + w <= |h.mem.bytes|
      then
        var v := LoadLE(h.mem.bytes, Get(h, index), w);
        Some(Put(h, d, if signed then SignExtend(v, 8 * w) else Wrap(v)))
      else None
    case StrMem(w, n, base, index) =>
      if Get(h, base) == env.memBase && Get(h, index) + w <= |h.mem.bytes|
      then Some(h.(mem := h.mem.(bytes := StoreLE(h.mem.bytes, Get(h, index), w, Get(h, n))))) else None
    case LdrBlock(d, base, index) =>
      if Get(h, base) == env.blockBase then BlockEntry(env, Get(h, index), h, d) else None
    case LdarBlock(d, n) => BlockEntry(env, Get(h, n) - env.blockBase, h, d)
    case Bind(_) => Some(h)
    case _ => None
  }

  predicate Transfers(i: HInstr) {
    i.BCond? || i.Cbz? || i.Br? || i.Ret?
  }

  /** The code after the first binding of a label. */
  function After(s: Code, l: Label): (r: Code)
    ensures |r| <= |s|
  {
    if s == [] then [] else if s[0] == Bind(l) then s[1..] else After(s[1..], l)
  }

  /** Code ends by returning to the trampoline or by jumping to an address in the code buffer, given
      as its distance from the buffer's base; everything else is a crash. */
  datatype Outcome = Crash | Returned(host: Host) | Jumped(offset: Word, host: Host)

  /** Running code from its first instruction. Branches only go forward: a label bound earlier, or
      not at all, leads nowhere, and so does the end of the code. */
  function Run(env: Env, s: Code, h: Host): Outcome
    decreases |s|
  {
    if s == [] then Crash
    else
      match s[0]
      case BCond(c, l) => if Holds(c, h.flags) then Run(env, After(s[1..], l), h) else Run(env, s[1..], h)
      case Cbz(n, l) => if Get(h, n) == 0 then Run(env, After(s[1..], l), h) else Run(env, s[1..], h)
      case Br(n) => Jumped(Wrap(Get(h, n) - env.codeBase), h)
      case Ret => if Get(h, RETURN) == env.returnTo then Returned(h) else Crash
      case i => match Exec(env, i, h) case Some(g) => Run(env, s[1..], g) case None => Crash
  }

  // ----- composing runs -----

  /** Straight-line code, run to its end. */
  function ExecAll(env: Env, s: Code, h: Host): Option<Host>
    decreases |s|
  {
    if s == [] then Some(h)
    else match Exec(env, s[0], h) case Some(g) => ExecAll(env, s[1..], g) case None => None
  }

  lemma RunOne(env: Env, i: HInstr, rest: Code, h: Host)
    ensures !Transfers(i) && Exec(env, i, h).Some? ==> Run(env, [i] + rest, h) == Run(env, rest, Exec(env, i, h).value)
    ensures i.BCond? ==>
              Run(env, [i] + rest, h) == if Holds(i.condition, h.flags) then Run(env, After(rest, i.target), h)
                else Run(env, rest, h)
    ensures i.Cbz? ==>
              Run(env, [i] + rest, h) == if Get(h, i.n) == 0 then Run(env, After(rest, i.target), h)
                else Run(env, rest, h)
    ensures i.Br? ==> Run(env, [i] + rest, h) == Jumped(Wrap(Get(h, i.n) - env.codeBase), h)
    ensures i.Ret? && Get(h, RETURN) == env.returnTo ==> Run(env, [i] + rest, h) == Returned(h)
  {
    hide Exec, Holds, After;
    var s := [i] + rest;
    assert s[0] == i && s[1..] == rest;
  }

  lemma {:induction false} RunAll(env: Env, s: Code, rest: Code, h: Host)
    requires ExecAll(env, s, h).Some?
    ensures Run(env, s + rest, h) == Run(env, rest, ExecAll(env, s, h).value)
    decreases |s|
  {
    hide Exec, Holds, After;
    if s == [] {
      assert s + rest == rest;
    } else {
      ExecDoesNotTransfer(env, s[0], h);
      RunOne(env, s[0], s[1..] + rest, h);
      assert s + rest == [s[0]] + (s[1..] + rest);
      RunAll(env, s[1..], rest, Exec(env, s[0], h).value);
    }
  }

  lemma ExecDoesNotTransfer(env: Env, i: HInstr, h: Host)
    requires Exec(env, i, h).Some?
    ensures !Transfers(i)
  {
  }

  lemma {:induction false} ExecAllAppend(env: Env, s: Code, t: Code, h: Host)
    ensures ExecAll(env, s + t, h)
         == match ExecAll(env, s, h) case Some(g) => ExecAll(env, t, g) case None => None
    decreases |s|
  {
    hide Exec;
    if s == [] {
      assert s + t == t;
    } else {
      assert (s + t)[0] == s[0] && (s + t)[1..] == s[1..] + t;
      if Exec(env, s[0], h).Some? {
        ExecAllAppend(env, s[1..], t, Exec(env, s[0], h).value);
      }
    }
  }

  lemma ExecOne(env: Env, i: HInstr, h: Host)
    ensures ExecAll(env, [i], h) == Exec(env, i, h)
  {
    hide Exec;
    assert [i][1..] == [];
  }

  lemma ExecTwo(env: Env, i: HInstr, j: HInstr, h: Host)
    ensures ExecAll(env, [i, j], h) == match Exec(env, i, h) case Some(g) => Exec(env, j, g) case None => None
  {
    hide Exec;
    assert [i, j] == [i] + [j];
    ExecAllAppend(env, [i], [j], h);
    ExecOne(env, i, h);
    match Exec(env, i, h)
    case Some(g) => ExecOne(env, j, g);
    case None =>
  }

  // ----- finding labels -----

  predicate Binds(s: Code, l: Label) {
    Bind(l) in s
  }

  lemma {:induction false} AfterSkips(s: Code, t: Code, l: Label)
    requires !Binds(s, l)
    ensures After(s + t, l) == After(t, l)
  {
    if s == [] {
      assert s + t == t;
    } else {
      assert (s + t)[0] == s[0] && (s + t)[1..] == s[1..] + t;
      AfterSkips(s[1..], t, l);
    }
  }

  lemma AfterHere(t: Code, l: Label)
    ensures After([Bind(l)] + t, l) == t
  {
    assert ([Bind(l)] + t)[1..] == t;
  }
}
