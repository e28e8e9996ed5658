/** Instructions that compute a register: what their host code computes, and where that is what the
    interpreter computes. */
module ComputeMeaning {
  import opened Words
  import opened Instructions
  import opened Memories
  import opened Interpreter
  import opened HostMachine
  import opened Translator
  import opened CodeMeaning

  // ----- the value computed by the emitted code -----

  function HostImm(op: ImmOp, a: Word, imm: int): Word {
    var v := AluValue(ImmAluOp(op), a, Wrap(imm));
    if op == Addiw then SignExtend32(v) else v
  }

  function HostShift(op: ShiftOp, a: Word, shamt: nat): Word {
    var v := AluValue(ShiftAluOp(op), a, Wrap(shamt));
    if WideShift(op) then v else SignExtend32(v)
  }

  function HostReg(op: RegOp, a: Word, b: Word): Word {
    var v := AluValue(RegAluOp(op), a, b);
    if WideReg(op) then v else SignExtend32(v)
  }

  function HostMulDiv(op: MulDivOp, a: Word, b: Word): Word {
    match op
    case Mul => AluValue(MulX, a, b)
    case Div => AluValue(SdivX, a, b)
    case Divu => AluValue(UdivX, a, b)
    case Mulw => SignExtend32(AluValue(MulW, a, b))
    case Divw => SignExtend32(AluValue(SdivW, a, b))
    case Divuw => SignExtend32(AluValue(UdivW, a, b))
    case Rem => Wrap(a - AluValue(SdivX, a, b) * b)
    case Remu => Wrap(a - AluValue(UdivX, a, b) * b)
    case Remw => SignExtend32(Low32(a - AluValue(SdivW, a, b) * b))
    case Remuw => SignExtend32(Low32(a - AluValue(UdivW, a, b) * b))
  }

  function HostCompute(i: Instruction, pc: Word, a: Word, b: Word): Word
    requires IsCompute(i.op)
  {
    match i.op
    case Lui => Wrap(i.imm)
    case Auipc => Wrap(pc + i.imm)
    case Imm(op) => HostImm(op, a, i.imm)
    case Shift(op) => HostShift(op, a, i.shamt)
    case SetImm(unsigned) => BoolWord(if unsigned then a < Wrap(i.imm) else Signed(a) < Signed(Wrap(i.imm)))
    case Set(unsigned) => BoolWord(if unsigned then a < b else Signed(a) < Signed(b))
    case Reg(op) => HostReg(op, a, b)
    case MulDiv(op) => HostMulDiv(op, a, b)
  }

  /** What the decoder guarantees of every instruction word. */
  predicate WellFormed(i: Instruction) {
    -TWO31 <= i.imm < TWO31 && (i.op.Shift? ==> i.shamt < if WideShift(i.op.shift) then 64 else 32)
  }

  // ----- running the code -----

  /** Only the destination, one scratch register and the flags changed, and d holds v. */
  ghost predicate Computes(h: Host, g: Host, d: HReg, v: Word) {
    && g.table == h.table && g.mem == h.mem && g.r[d] == v
    && forall n: HReg :: n != d && n != A_REG ==> g.r[n] == h.r[n]
  }

  /** Cached registers and the zero register: never a scratch register or one that is fixed. */
  predicate Operand0(n: HReg) { n > C_REG && n != PLATFORM && n != FRAME && n != RETURN }

  lemma OperandMeaning(env: Env, cfg: Config, imm: int, h: Host)
    requires h.r[BASE_PC] == cfg.basePc
    ensures var o := LoadImmediateOrZero(cfg, A_REG, imm);
            ExecAll(env, o.code, h).Some? && (o.reg == XZR || o.reg == A_REG)
            && var g := ExecAll(env, o.code, h).value;
               OnlyRegister(h, g, A_REG) && Get(g, o.reg) == Wrap(imm)
  {
    if imm != 0 {
      LoadImmediateMeaning(env, cfg, A_REG, Wrap(imm), h);
    }
  }

  lemma ImmSum(a: Word, imm: int)
    ensures AluValue(AddX, a, Wrap(imm)) == Wrap(a + imm)
    ensures AluValue(AddX, a, Wrap(0)) == a
  {
    WrapAdd(a, imm);
  }

  function ImmHead(cfg: Config, op: ImmOp, a: HReg, d: HReg, imm: int): Code {
    var sum := op == Addi || op == Addiw;
    var b := LoadImmediateOrZero(cfg, A_REG, imm);
    if sum && imm == 0 then [MovReg(d, a)]
    else if sum && a == XZR then LoadImmediate(cfg, d, Wrap(imm))
    else if sum && imm in cfg.addImms then [AddImm(d, a, imm)]
    else if !sum && (ImmBitOp(op), imm) in cfg.bitImms then [BitImm(ImmBitOp(op), d, a, imm)]
    else b.code + [Alu(ImmAluOp(op), d, a, b.reg)]
  }

  lemma ImmHeadMeaning(env: Env, cfg: Config, op: ImmOp, a: HReg, d: HReg, imm: int, h: Host)
    requires Operand0(a) && Operand0(d) && d != XZR && h.r[BASE_PC] == cfg.basePc
    ensures ExecAll(env, ImmHead(cfg, op, a, d, imm), h).Some?
    ensures Computes(h, ExecAll(env, ImmHead(cfg, op, a, d, imm), h).value, d,
            AluValue(ImmAluOp(op), Get(h, a), Wrap(imm)))
  {
    hide Bits, LoadLE, SignExtend, SignExtend32, StoreLE, BlockEntry, Holds;
    var sum := op == Addi || op == Addiw;
    ImmSum(Get(h, a), imm);
    if sum && imm == 0 {
      ExecOne(env, MovReg(d, a), h);
    } else if sum && a == XZR {
      LoadImmediateMeaning(env, cfg, d, Wrap(imm), h);
    } else if sum && imm in cfg.addImms {
      ExecOne(env, AddImm(d, a, imm), h);
    } else if !sum && (ImmBitOp(op), imm) in cfg.bitImms {
      ExecOne(env, BitImm(ImmBitOp(op), d, a, imm), h);
    } else {
      var b := LoadImmediateOrZero(cfg, A_REG, imm);
      var alu := Alu(ImmAluOp(op), d, a, b.reg);
      OperandMeaning(env, cfg, imm, h);
      ExecOne(env, alu, ExecAll(env, b.code, h).value);
      ExecAllAppend(env, b.code, [alu], h);
    }
  }

  /** A result followed by sxtw of itself. */
  lemma ThenSignExtend(env: Env, code: Code, d: HReg, v: Word, h: Host)
    requires d != XZR && ExecAll(env, code, h).Some? && Computes(h, ExecAll(env, code, h).value, d, v)
    ensures ExecAll(env, code + [Sxtw(d, d)], h).Some?
    ensures Computes(h, ExecAll(env, code + [Sxtw(d, d)], h).value, d, SignExtend32(v))
  {
    ExecAllAppend(env, code, [Sxtw(d, d)], h);
    ExecOne(env, Sxtw(d, d), ExecAll(env, code, h).value);
  }

  lemma ImmBodyMeaning(env: Env, cfg: Config, op: ImmOp, a: HReg, d: HReg, imm: int, h: Host)
    requires Operand0(a) && Operand0(d) && d != XZR && h.r[BASE_PC] == cfg.basePc
    ensures ExecAll(env, ImmBody(cfg, op, a, d, imm), h).Some?
    ensures Computes(h, ExecAll(env, ImmBody(cfg, op, a, d, imm), h).value, d, HostImm(op, Get(h, a), imm))
  {
    hide Exec, ExecAll, AluValue, SignExtend32, LoadImmediateOrZero, LoadImmediate;
    var head := ImmHead(cfg, op, a, d, imm);
    ImmHeadMeaning(env, cfg, op, a, d, imm, h);
    if op == Addiw {
      ThenSignExtend(env, head, d, AluValue(ImmAluOp(op), Get(h, a), Wrap(imm)), h);
      assert ImmBody(cfg, op, a, d, imm) == head + [Sxtw(d, d)];
    } else {
      assert ImmBody(cfg, op, a, d, imm) == head;
    }
  }

  lemma ShiftBodyMeaning(env: Env, op: ShiftOp, a: HReg, d: HReg, shamt: nat, h: Host)
    requires Operand0(d) && d != XZR
    ensures ExecAll(env, ShiftBody(op, a, d, shamt), h).Some?
    ensures Computes(h, ExecAll(env, ShiftBody(op, a, d, shamt), h).value, d, HostShift(op, Get(h, a), shamt))
  {
    hide AluValue, SignExtend32, ShiftAluOp;
    var shift := AluShift(ShiftAluOp(op), d, a, shamt);
    ExecOne(env, shift, h);
    ThenSignExtend(env, [shift], d, AluValue(ShiftAluOp(op), Get(h, a), Wrap(shamt)), h);
    assert [shift] + [] == [shift];
  }

  lemma RegBodyMeaning(env: Env, op: RegOp, a: HReg, b: HReg, d: HReg, h: Host)
    requires Operand0(d) && d != XZR
    ensures ExecAll(env, RegBody(op, a, b, d), h).Some?
    ensures Computes(h, ExecAll(env, RegBody(op, a, b, d), h).value, d, HostReg(op, Get(h, a), Get(h, b)))
  {
    hide AluValue, SignExtend32, RegAluOp;
    var alu := Alu(RegAluOp(op), d, a, b);
    ExecOne(env, alu, h);
    ThenSignExtend(env, [alu], d, AluValue(RegAluOp(op), Get(h, a), Get(h, b)), h);
    assert [alu] + [] == [alu];
  }

  lemma RemainderBodyMeaning(env: Env, division: AluOp, wide: bool, a: HReg, b: HReg, d: HReg, h: Host)
    requires Operand0(a) && Operand0(b) && Operand0(d) && d != XZR
    ensures var code := [Alu(division, A_REG, a, b), Msub(wide, d, A_REG, b, a)];
            var v := Get(h, a) - AluValue(division, Get(h, a), Get(h, b)) * Get(h, b);
            ExecAll(env, code, h).Some? && Computes(h, ExecAll(env, code, h).value, d, if wide then Wrap(v)
              else Low32(v))
  {
    hide AluValue;
    ExecTwo(env, Alu(division, A_REG, a, b), Msub(wide, d, A_REG, b, a), h);
  }

  lemma MulDivBodyMeaning(env: Env, op: MulDivOp, a: HReg, b: HReg, d: HReg, h: Host)
    requires Operand0(a) && Operand0(b) && Operand0(d) && d != XZR
    ensures ExecAll(env, MulDivBody(op, a, b, d), h).Some?
    ensures Computes(h, ExecAll(env, MulDivBody(op, a, b, d), h).value, d, HostMulDiv(op, Get(h, a), Get(h, b)))
  {
    hide AluValue, SignExtend32, Computes, Exec, ExecAll;
    var va, vb := Get(h, a), Get(h, b);
    match op
    case Mul => AluBody(env, MulX, a, b, d, h);
    case Div => AluBody(env, SdivX, a, b, d, h);
    case Divu => AluBody(env, UdivX, a, b, d, h);
    case Mulw => AluBody(env, MulW, a, b, d, h);
    case Divw => AluBody(env, SdivW, a, b, d, h);
    case Divuw => AluBody(env, UdivW, a, b, d, h);
    case Rem => RemainderBodyMeaning(env, SdivX, true, a, b, d, h);
    case Remu => RemainderBodyMeaning(env, UdivX, true, a, b, d, h);
    case Remw =>
      RemainderBodyMeaning(env, SdivW, false, a, b, d, h);
      ThenSignExtend(env, [Alu(SdivW, A_REG, a, b), Msub(false, d, A_REG, b, a)], d,
        Low32(va - AluValue(SdivW, va, vb) * vb), h);
    case Remuw =>
      RemainderBodyMeaning(env, UdivW, false, a, b, d, h);
      ThenSignExtend(env, [Alu(UdivW, A_REG, a, b), Msub(false, d, A_REG, b, a)], d,
        Low32(va - AluValue(UdivW, va, vb) * vb), h);
  }

  lemma AluBody(env: Env, op: AluOp, a: HReg, b: HReg, d: HReg, h: Host)
    requires d != XZR
    ensures ExecAll(env, [Alu(op, d, a, b)], h).Some?
    ensures Computes(h, ExecAll(env, [Alu(op, d, a, b)], h).value, d, AluValue(op, Get(h, a), Get(h, b)))
    ensures var code := [Alu(op, d, a, b), Sxtw(d, d)];
            ExecAll(env, code, h).Some?
            && Computes(h, ExecAll(env, code, h).value, d, SignExtend32(AluValue(op, Get(h, a), Get(h, b))))
  {
    hide AluValue, SignExtend32;
    ExecOne(env, Alu(op, d, a, b), h);
    ExecTwo(env, Alu(op, d, a, b), Sxtw(d, d), h);
  }

  lemma CompareAndSet(env: Env, compare: HInstr, condition: Condition, d: HReg, a: Word, b: Word, h: Host)
    requires d != XZR && Exec(env, compare, h) == Some(h.(flags := (a, b)))
    ensures ExecAll(env, [compare, Cset(d, condition)], h).Some?
    ensures Computes(h, ExecAll(env, [compare, Cset(d, condition)], h).value, d, BoolWord(Holds(condition, (a, b))))
  {
    ExecTwo(env, compare, Cset(d, condition), h);
  }

  lemma SetImmBodyMeaning(env: Env, cfg: Config, unsigned: bool, a: HReg, d: HReg, imm: int, h: Host)
    requires Operand0(a) && a != XZR && Operand0(d) && d != XZR && h.r[BASE_PC] == cfg.basePc
    ensures ExecAll(env, SetImmBody(cfg, unsigned, a, d, imm), h).Some?
    ensures Computes(h, ExecAll(env, SetImmBody(cfg, unsigned, a, d, imm), h).value, d,
                     BoolWord(if unsigned then Get(h, a) < Wrap(imm) else Signed(Get(h, a)) < Signed(Wrap(imm))))
  {
    hide Signed;
    var c := if unsigned then UnsignedLess else Less;
    if imm in cfg.cmpImms {
      CompareAndSet(env, CmpImm(a, imm), c, d, Get(h, a), Wrap(imm), h);
      assert SetImmBody(cfg, unsigned, a, d, imm) == [CmpImm(a, imm), Cset(d, c)];
    } else {
      var b := LoadImmediateOrZero(cfg, A_REG, imm);
      OperandMeaning(env, cfg, imm, h);
      var g := ExecAll(env, b.code, h).value;
      var tail := [CmpReg(true, a, b.reg), Cset(d, c)];
      CompareAndSet(env, CmpReg(true, a, b.reg), c, d, Get(h, a), Wrap(imm), g);
      assert SetImmBody(cfg, unsigned, a, d, imm) == b.code + tail;
      ExecAllAppend(env, b.code, tail, h);
    }
  }

  lemma SmallImmediate(imm: int)
    requires -TWO31 <= imm < TWO31
    ensures Signed(Wrap(imm)) == imm
  {
  }

  /** The body run from a state whose operand registers hold a and b leaves HostCompute in d. */
  lemma BodyMeaning(env: Env, cfg: Config, i: Instruction, pc: Word, a: HReg, b: HReg, d: HReg, h: Host)
    requires IsCompute(i.op) && WellFormed(i) && h.r[BASE_PC] == cfg.basePc
    requires Operand0(a) && Operand0(b) && Operand0(d) && d != XZR
    requires i.op.SetImm? ==> if i.rs1 == 0 then true else a != XZR
    ensures var code := ComputeBody(cfg, i, pc, a, b, d);
            ExecAll(env, code, h).Some?
            && Computes(h, ExecAll(env, code, h).value, d,
                        HostCompute(i, pc, if i.op.SetImm? && i.rs1 == 0 then 0 else Get(h, a), Get(h, b)))
  {
    hide AluValue, Signed, HostImm, HostShift, HostReg, HostMulDiv, ImmBody, ShiftBody, SetImmBody, RegBody, MulDivBody;
    match i.op
    case Lui => LoadImmediateMeaning(env, cfg, d, Wrap(i.imm), h);
    case Auipc => LoadImmediateMeaning(env, cfg, d, Wrap(pc + i.imm), h);
    case Imm(op) => ImmBodyMeaning(env, cfg, op, a, d, i.imm, h);
    case Shift(op) => ShiftBodyMeaning(env, op, a, d, i.shamt, h);
    case SetImm(unsigned) =>
      if i.rs1 == 0 {
        SmallImmediate(i.imm);
        ZeroSigned();
        LoadImmediateMeaning(env, cfg, d, BoolWord(if unsigned then 0 < Wrap(i.imm) else 0 < i.imm), h);
      } else {
        SetImmBodyMeaning(env, cfg, unsigned, a, d, i.imm, h);
      }
    case Set(unsigned) =>
      CompareAndSet(env, CmpReg(true, a, b), if unsigned then UnsignedLess else Less, d, Get(h, a), Get(h, b), h);
    case Reg(op) => RegBodyMeaning(env, op, a, b, d, h);
    case MulDiv(op) => MulDivBodyMeaning(env, op, a, b, d, h);
  }

  lemma ZeroSigned()
    ensures Signed(0) == 0
  {
  }
}
