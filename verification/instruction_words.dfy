/** Which words the decoder reads as instructions: the converse of its round trip. */
module InstructionWords {
  import opened Words
  import opened Instructions

  // ----- laying the fields of a word out again -----

  lemma FieldsLay(w: Word32)
    ensures w == Lay(Opcode(w), Rd(w), Funct3(w), Rs1(w), Rs2(w), Funct7(w))
  {
    var q1, q2, q3, q4, q5 := w / 0x80, w / 0x1000, w / 0x8000, w / 0x10_0000, w / 0x200_0000;
    assert w == 0x80 * q1 + Opcode(w);
    assert q1 == 32 * q2 + Rd(w);
    assert q2 == 8 * q3 + Funct3(w);
    assert q3 == 32 * q4 + Rs1(w);
    assert q4 == 32 * q5 + Rs2(w);
  }

  lemma TopBit(w: Word32)
    ensures w >= 0x8000_0000 <==> Funct7(w) >= 64
    ensures w / 0x10_0000 == Rs2(w) + 32 * Funct7(w)
  {
  }

  lemma SignedBits(imm: int)
    requires -0x8000_0000 <= imm < 0x8000_0000
    ensures Signed32(Bits32(imm)) == imm
  {
  }

  /** The immediate of a field of twelve bits, low five and high seven. */
  function Twelve(low: GuestReg, high: Field7): int {
    low + 32 * (high % 64) - (if high >= 64 then 0x800 else 0)
  }

  lemma TwelveSplits(low: GuestReg, high: Field7)
    ensures var imm := Twelve(low, high);
            -0x800 <= imm < 0x800 && imm % 32 == low && (imm / 32) % 0x80 == high && Signed32(Bits32(imm)) == imm
  {
    var imm, k := Twelve(low, high), high % 64 - (if high >= 64 then 64 else 0);
    hide Signed32, Bits32;
    SignedBits(imm);
    assert imm == 32 * k + low;
    DivUnique(imm, 32, k, low);
    assert k % 0x80 == high;
  }

  lemma WordI(w: Word32)
    ensures var imm := Signed32(ImmI(w));
            -0x800 <= imm < 0x800 && EncodeI(Opcode(w), Funct3(w), Rd(w), Rs1(w), imm) == w
            && imm == Twelve(Rs2(w), Funct7(w))
  {
    hide Opcode, Rd, Rs1, Rs2, Funct3, Funct7, ImmI, Lay, Bits32, Signed32, Twelve;
    FieldsLay(w);
    TopBit(w);
    ImmediateI(w, Rs2(w), Funct7(w));
    assert ImmI(w) == Bits32(Twelve(Rs2(w), Funct7(w))) by { TwelveIs(Rs2(w), Funct7(w)); }
    TwelveSplits(Rs2(w), Funct7(w));
  }

  lemma TwelveIs(low: GuestReg, high: Field7)
    ensures Twelve(low, high) == low + 32 * (high % 64) - (if high >= 64 then 0x800 else 0)
  {
  }

  lemma WordS(w: Word32)
    requires Opcode(w) == 0x23
    ensures var imm := Signed32(ImmS(w)); -0x800 <= imm < 0x800 && EncodeS(Funct3(w), Rs1(w), Rs2(w), imm) == w
  {
    hide Opcode, Rd, Rs1, Rs2, Funct3, Funct7, ImmS, Lay, Bits32, Signed32;
    FieldsLay(w);
    TopBit(w);
    assert ImmS(w) == Bits32(Twelve(Rd(w), Funct7(w))) by { ImmSIs(w); }
    TwelveSplits(Rd(w), Funct7(w));
  }

  lemma ImmSIs(w: Word32)
    ensures ImmS(w) == Bits32(Twelve(Rd(w), Funct7(w)))
  {
    hide Rd, Funct7;
    TopBit(w);
  }

  lemma ThirteenSplits(a: nat, b: nat, c: nat, d: nat)
    requires a < 16 && b < 64 && c < 2 && d < 2
    ensures var imm := 2 * a + 32 * b + 0x800 * c - 0x1000 * d;
            && imm % 2 == 0 && -0x1000 <= imm < 0x1000 && Signed32(Bits32(imm)) == imm
            && (imm / 0x800) % 2 == c && (imm / 2) % 16 == a && (imm / 32) % 64 == b && (imm / 0x1000) % 2 == d
  {
    var imm := 2 * a + 32 * b + 0x800 * c - 0x1000 * d;
    hide Signed32, Bits32;
    SignedBits(imm);
    assert imm % 2 == 0 && (imm / 2) % 16 == a by { DivUnique(imm, 2, a + 16 * b + 0x400 * c - 0x800 * d, 0); }
    assert (imm / 32) % 64 == b by { DivUnique(imm, 32, b + 64 * c - 128 * d, 2 * a); }
    assert (imm / 0x800) % 2 == c by { DivUnique(imm, 0x800, c - 2 * d, 2 * a + 32 * b); }
    assert (imm / 0x1000) % 2 == d by { DivUnique(imm, 0x1000, 0 - d, 2 * a + 32 * b + 0x800 * c); }
  }

  lemma WordB(w: Word32)
    requires Opcode(w) == 0x63
    ensures var imm := Signed32(ImmB(w));
            imm % 2 == 0 && -0x1000 <= imm < 0x1000 && EncodeB(Funct3(w), Rs1(w), Rs2(w), imm) == w
  {
    hide Opcode, Rd, Rs1, Rs2, Funct3, Funct7, ImmB, Lay, Bits32, Signed32;
    var a, b, c, d := Rd(w) / 2, Funct7(w) % 64, Rd(w) % 2, Funct7(w) / 64;
    FieldsLay(w);
    TopBit(w);
    ImmediateB(w, a, b, c, d);
    ThirteenSplits(a, b, c, d);
  }

  lemma WordU(w: Word32)
    ensures var imm := Signed32(ImmU(w));
            imm % 0x1000 == 0 && -0x8000_0000 <= imm < 0x8000_0000 && EncodeU(Opcode(w), Rd(w), imm) == w
  {
    hide Signed32, Bits32;
    var q := w / 0x1000;
    var imm := 0x1000 * (if q < 0x8_0000 then q else q - 0x10_0000);
    assert ImmU(w) == Bits32(imm) by { UpperIs(w, q, imm); }
    SignedBits(imm);
    DivUnique(imm, 0x1000, if q < 0x8_0000 then q else q - 0x10_0000, 0);
    ModSplit(w, 0x80, 32);
  }

  lemma UpperIs(w: Word32, q: nat, imm: int)
    requires q == w / 0x1000 && imm == 0x1000 * (if q < 0x8_0000 then q else q - 0x10_0000)
    ensures ImmU(w) == Bits32(imm)
  {
    assert w == 0x1000 * q + w % 0x1000;
  }

  lemma FieldOf(x: int, m: int, q: int, r: int, n: int)
    requires m > 0 && n > 0 && x == m * q + r && 0 <= r < m
    ensures (x / m) % n == q % n
  {
    DivUnique(x, m, q, r);
  }

  lemma FieldsJ(a: nat, b: nat, c: nat, d: nat)
    requires a < 0x100 && b < 2 && c < 0x400 && d < 2
    ensures (c + 0x400 * b + 0x800 * a - 0x8_0000 * d) % 0x400 == c && (b + 2 * a - 0x200 * d) % 2 == b
    ensures (a - 0x100 * d) % 0x100 == a && (0 - d) % 2 == d
  {
  }

  lemma TwentyOneSplits(a: nat, b: nat, c: nat, d: nat)
    requires a < 0x100 && b < 2 && c < 0x400 && d < 2
    ensures var imm := 2 * c + 0x800 * b + 0x1000 * a - 0x10_0000 * d;
            && imm % 2 == 0 && -0x10_0000 <= imm < 0x10_0000 && Signed32(Bits32(imm)) == imm
            && (imm / 0x1000) % 0x100 == a && (imm / 0x800) % 2 == b && (imm / 2) % 0x400 == c
               && (imm / 0x10_0000) % 2 == d
  {
    var imm := 2 * c + 0x800 * b + 0x1000 * a - 0x10_0000 * d;
    hide Signed32, Bits32;
    SignedBits(imm);
    FieldsJ(a, b, c, d);
    DivUnique(imm, 2, c + 0x400 * b + 0x800 * a - 0x8_0000 * d, 0);
    FieldOf(imm, 0x800, b + 2 * a - 0x200 * d, 2 * c, 2);
    FieldOf(imm, 0x1000, a - 0x100 * d, 2 * c + 0x800 * b, 0x100);
    FieldOf(imm, 0x10_0000, 0 - d, 2 * c + 0x800 * b + 0x1000 * a, 2);
  }

  lemma WordJ(w: Word32)
    requires Opcode(w) == 0x6f
    ensures var imm := Signed32(ImmJ(w)); imm % 2 == 0 && -0x10_0000 <= imm < 0x10_0000 && EncodeJ(Rd(w), imm) == w
  {
    hide ImmJ, Bits32, Signed32;
    var a, b, c, d := (w / 0x1000) % 0x100, (w / 0x10_0000) % 2, (w / 0x20_0000) % 0x400, w / 0x8000_0000;
    OneBitOnTop(w);
    LayJ(w, a, b, c, d);
    ImmediateJ(w, a, b, c, d);
    TwentyOneSplits(a, b, c, d);
  }

  lemma OneBitOnTop(w: Word32)
    ensures w / 0x8000_0000 < 2 && (w >= 0x8000_0000 <==> w / 0x8000_0000 == 1)
  {
  }

  lemma LayJ(w: Word32, a: nat, b: nat, c: nat, d: nat)
    requires a == (w / 0x1000) % 0x100 && b == (w / 0x10_0000) % 2 && c == (w / 0x20_0000) % 0x400
             && d == w / 0x8000_0000
    ensures w == Opcode(w) + 0x80 * Rd(w) + 0x1000 * a + 0x10_0000 * b + 0x20_0000 * c + 0x8000_0000 * d
  {
    NextDigit(w, 1, 0x80, 0x80);
    NextDigit(w, 0x80, 32, 0x1000);
    NextDigit(w, 0x1000, 0x100, 0x10_0000);
    NextDigit(w, 0x10_0000, 2, 0x20_0000);
    NextDigit(w, 0x20_0000, 0x400, 0x8000_0000);
    Digits(w, Opcode(w), Rd(w), a, b, c, d, w / 0x80, w / 0x1000, w / 0x10_0000, w / 0x20_0000);
  }

  lemma NextDigit(w: nat, m: nat, n: nat, mn: nat)
    requires m > 0 && n > 0 && mn == m * n
    ensures mn > 0 && w / m == n * (w / mn) + (w / m) % n
  {
    ModSplit(w, m, n);
  }

  lemma Digits(w: nat, opcode: nat, rd: nat, a: nat, b: nat, c: nat, d: nat, q1: nat, q2: nat, q3: nat, q4: nat)
    requires w == 0x80 * q1 + opcode && q1 == 32 * q2 + rd && q2 == 0x100 * q3 + a && q3 == 2 * q4 + b
             && q4 == 0x400 * d + c
    ensures w == opcode + 0x80 * rd + 0x1000 * a + 0x10_0000 * b + 0x20_0000 * c + 0x8000_0000 * d
  {
  }

  // ----- words that encode nothing and yet decode -----

  /** Shifts by an immediate whose upper bits no shift has: those of opcode 0x13 fall through into the load
      cases, and one form of opcode 0x1b passes the test for Sraiw. */
  predicate Stray(w: Word32) {
    || (Opcode(w) == 0x13 && Funct3(w) == 1 && Shtype(w) != 0)
    || (Opcode(w) == 0x13 && Funct3(w) == 5 && Shtype(w) != 0 && Shtype(w) != 0x10)
    || (Opcode(w) == 0x1b && Funct3(w) == 5 && Shtype(w) == 0x20)
  }

  /** What a stray word is taken for. */
  function TakenFor(w: Word32): InstructionType {
    if Opcode(w) == 0x1b then Shift(Sraiw) else if Funct3(w) == 1 then Load(Lh) else Load(Lhu)
  }

  lemma StrayDecodes(w: Word32)
    requires Stray(w)
    ensures var i := Decoded(w);
            i.op == TakenFor(w) && i.rd == Rd(w) && i.rs1 == Rs1(w) && i.rs2 == 0
            && i.imm == if i.op.Load? then Signed32(ImmI(w)) else Rs2(w)
  {
    hide SetDecoded, Opcode, Rd, Rs1, Rs2, Funct3, ImmI, Shamt, Packed.Type, Packed.Rd, Packed.Rs1, Packed.Rs2,
      Signed32;
    assert Opcode(w) == 0x1b ==> Funct7(w) != 0 by { HighShift(w); }
    PackedFields(TakenFor(w), Rd(w), Rs1(w), 0, if Opcode(w) == 0x1b then Rs2(w) else ImmI(w));
    SmallSigned(Rs2(w));
  }

  lemma HighShift(w: Word32)
    ensures Shtype(w) == Funct7(w) / 2
  {
  }

  lemma SmallSigned(r: GuestReg)
    ensures Signed32(r) == r
  {
  }

  // ----- every other word that decodes is an encoding -----

  /** w is the encoding of an instruction with these operands, other than Sraiw. */
  predicate Encodes(w: Word32, t: InstructionType, rd: GuestReg, rs1: GuestReg, rs2: GuestReg, imm: int) {
    t != Undefined && t != Shift(Sraiw) && Encodable(t, rd, rs1, rs2, imm) && w == Encode(t, rd, rs1, rs2, imm)
  }

  /** The operands the accessors give. */
  predicate IsItsOwn(w: Word32) {
    var i := Decoded(w);
    Encodes(w, i.op, i.rd, i.rs1, i.rs2, if i.op.Shift? then i.shamt else i.imm)
  }

  lemma WordRegister(w: Word32)
    requires (Opcode(w) == 0x33 || Opcode(w) == 0x3b) && Decoded(w).op != Undefined
    ensures IsItsOwn(w)
  {
    hide Lay, SetDecoded, Opcode, Rd, Rs1, Rs2, Funct3, Funct7, Packed.Type, Packed.Rd, Packed.Rs1, Packed.Rs2, RType33,
      RType3b, RegFields;
    FieldsLay(w);
    var t := if Opcode(w) == 0x33 then RType33(Funct7(w), Funct3(w)) else RType3b(Funct7(w), Funct3(w));
    PackedFields(t, Rd(w), Rs1(w), Rs2(w), 0);
    PackedFields(Undefined, 0, 0, 0, 0);
    FieldsOfTypes(Opcode(w), Funct7(w), Funct3(w));
    assert Signed32(0) == 0;
  }

  lemma FieldsOfTypes(opcode: Field7, funct7: Field7, f: Field3)
    requires opcode == 0x33 || opcode == 0x3b
    ensures var t := if opcode == 0x33 then RType33(funct7, f) else RType3b(funct7, f);
            t != Undefined ==> (t.Reg? || t.Set? || t.MulDiv? || t.MulHigh?) && RegFields(t) == (opcode, f, funct7)
  {
  }

  /** The shift amount and the bits above it, as an immediate. */
  lemma ShiftImmediate(w: Word32)
    ensures var imm := Twelve(Rs2(w), Funct7(w));
            && (Shtype(w) == 0 ==> imm == Shamt(w))
            && (Shtype(w) == 0x10 ==> imm == Shamt(w) + 0x400)
            && (Funct7(w) == 0 ==> imm == Rs2(w))
  {
    TopBit(w);
    HighShift(w);
    assert w / 0x400_0000 == Shtype(w);
    assert Shamt(w) == Rs2(w) + 32 * (Funct7(w) % 2);
  }

  lemma WordShift(w: Word32)
    requires Opcode(w) == 0x13 || Opcode(w) == 0x1b
    requires Decoded(w).op.Shift? && !Stray(w)
    ensures IsItsOwn(w)
  {
    hide EncodeI, SetDecoded, Opcode, Rd, Rs1, Rs2, Funct3, Funct7, Shtype, Shamt, ImmI, Twelve, Packed.Type, Packed.Rd,
      Packed.Rs1, Packed.Rs2, IType, Signed32;
    WordI(w);
    ShiftImmediate(w);
    assert Shamt(w) < 64 by { ShamtFits(w); }
    PackedFields(IType(w), Rd(w), Rs1(w), 0, ITypeImm(IType(w), w));
    PackedFields(Undefined, 0, 0, 0, 0);
    ShiftTypes(w);
  }

  lemma ShamtFits(w: Word32)
    ensures Shamt(w) < 64
  {
  }

  /** The tests a shift has passed. */
  lemma ShiftTypes(w: Word32)
    requires IType(w).Shift? && !Stray(w)
    ensures var s := IType(w).shift;
            && s != Sraiw && Opcode(w) == (if WideShift(s) then 0x13 else 0x1b)
            && Funct3(w) == (if s == Slli || s == Slliw then 1 else 5)
            && (if WideShift(s) then Shtype(w) == (if s == Srai then 0x10 else 0) else Funct7(w) == 0)
  {
    hide Opcode, Funct3, Funct7, Shtype, Rd, Rs1, ImmI;
  }

  lemma WordImmediate(w: Word32)
    requires Opcode(w) in {0x03, 0x0f, 0x13, 0x1b, 0x73, 0x67} && Decoded(w).op != Undefined && !Decoded(w).op.Shift?
             && !Stray(w)
    ensures IsItsOwn(w)
  {
    hide EncodeI, SetDecoded, Opcode, Rd, Rs1, Rs2, Funct3, Funct7, Shtype, Shamt, ImmI, Twelve, Packed.Type, Packed.Rd,
      Packed.Rs1, Packed.Rs2, IType, Signed32;
    WordI(w);
    PackedFields(IType(w), Rd(w), Rs1(w), 0, ITypeImm(IType(w), w));
    PackedFields(Undefined, 0, 0, 0, 0);
    ImmediateTypes(w);
    SmallSigned(0);
    SmallSigned(1);
  }

  lemma ImmediateTypes(w: Word32)
    requires Opcode(w) in {0x03, 0x0f, 0x13, 0x1b, 0x73, 0x67} && IType(w) != Undefined && !IType(w).Shift? && !Stray(w)
    ensures var t := IType(w);
            match t
            case Load(l) => Opcode(w) == 0x03 && Funct3(w) == LoadFunct3(l)
            case Imm(i) => Opcode(w) == (if i == Addiw then 0x1b else 0x13) && Funct3(w) == ImmFunct3(i)
            case SetImm(u) => Opcode(w) == 0x13 && Funct3(w) == if u then 3 else 2
            case Jalr => Opcode(w) == 0x67 && Funct3(w) == 0
            case Fence => Opcode(w) == 0x0f && Funct3(w) == 0
            case Ecall => Opcode(w) == 0x73 && Funct3(w) == Rd(w) == Rs1(w) == 0 && ImmI(w) == 0
            case Ebreak => Opcode(w) == 0x73 && Funct3(w) == Rd(w) == Rs1(w) == 0 && ImmI(w) == 1
            case _ => false
  {
    hide Opcode, Funct3, Funct7, Shtype, Rd, Rs1, ImmI;
  }

  lemma WordOther(w: Word32)
    requires Opcode(w) in {0x17, 0x37, 0x23, 0x63, 0x6f} && Decoded(w).op != Undefined
    ensures IsItsOwn(w)
  {
    hide EncodeS, EncodeB, EncodeU, EncodeJ, SetDecoded, Opcode, Rd, Rs1, Rs2, Funct3, Funct7, ImmS, ImmB, ImmU, ImmJ,
      Packed.Type, Packed.Rd, Packed.Rs1, Packed.Rs2, Signed32;
    var f := Funct3(w);
    PackedFields(Undefined, 0, 0, 0, 0);
    if Opcode(w) == 0x17 || Opcode(w) == 0x37 {
      WordU(w);
      PackedFields(if Opcode(w) == 0x37 then Lui else Auipc, Rd(w), 0, 0, ImmU(w));
    } else if Opcode(w) == 0x23 {
      WordS(w);
      PackedFields(Store(if f == 0 then Sb else if f == 1 then Sh else if f == 2 then Sw
        else Sd), 0, Rs1(w), Rs2(w), ImmS(w));
    } else if Opcode(w) == 0x63 {
      WordB(w);
      PackedFields(Branch(if f == 0 then Beq else if f == 1 then Bne else if f == 4 then Blt
                          else if f == 5 then Bge else if f == 6 then Bltu else Bgeu), 0, Rs1(w), Rs2(w), ImmB(w));
    } else {
      WordJ(w);
      PackedFields(Jal, Rd(w), 0, 0, ImmJ(w));
    }
  }

  lemma OpcodesOfDecoded(w: Word32)
    requires Decoded(w).op != Undefined
    ensures Opcode(w) in {0x03, 0x0f, 0x13, 0x1b, 0x73, 0x67, 0x33, 0x3b, 0x17, 0x37, 0x23, 0x63, 0x6f}
    ensures Decoded(w).op.Shift? ==>
              Opcode(w) == 0x13 || Opcode(w) == 0x1b || Opcode(w) !in {0x03, 0x0f, 0x13, 0x1b, 0x73, 0x67}
  {
    hide DecodeIType, DecodeUType, DecodeRType, DecodeSType, DecodeBType, Opcode, SetDecoded, ImmJ, Packed.Type;
    PackedFields(Undefined, 0, 0, 0, 0);
    if Opcode(w) in {0x03, 0x0f, 0x73, 0x67} {
      NoShiftHere(w);
    }
  }

  lemma NoShiftHere(w: Word32)
    requires Opcode(w) in {0x03, 0x0f, 0x73, 0x67}
    ensures !Decoded(w).op.Shift?
  {
    hide Opcode, Funct3, Funct7, Shtype, Rd, Rs1, ImmI, SetDecoded, Packed.Type;
    PackedFields(Undefined, 0, 0, 0, 0);
    PackedFields(IType(w), Rd(w), Rs1(w), 0, ITypeImm(IType(w), w));
  }

  /** The round trip from the other side: a word that decodes, and is not a stray, is the encoding of what
      the accessors say. */
  lemma EncodeDecode(w: Word32)
    requires Decoded(w).op != Undefined && !Stray(w)
    ensures IsItsOwn(w)
  {
    hide Decoded, Stray, IsItsOwn, Opcode;
    OpcodesOfDecoded(w);
    if Opcode(w) == 0x33 || Opcode(w) == 0x3b {
      WordRegister(w);
    } else if Opcode(w) in {0x17, 0x37, 0x23, 0x63, 0x6f} {
      WordOther(w);
    } else if Decoded(w).op.Shift? {
      WordShift(w);
    } else {
      WordImmediate(w);
    }
  }

  /** Exactly the words that decode to something: the encodings of instructions other than Sraiw, and the
      strays. */
  lemma DecodableIsExact(w: Word32)
    ensures Decoded(w).op != Undefined
       <==> Stray(w) || exists t, rd, rs1, rs2, imm :: Encodes(w, t, rd, rs1, rs2, imm)
  {
    hide Decoded, Stray, Encode;
    if Stray(w) {
      StrayDecodes(w);
    } else if Decoded(w).op != Undefined {
      EncodeDecode(w);
    } else {
      forall t, rd, rs1, rs2, imm | Encodes(w, t, rd, rs1, rs2, imm)
        ensures false
      {
        DecodeEncode(t, rd, rs1, rs2, imm);
      }
    }
  }
}
