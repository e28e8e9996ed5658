/** The decoder as it writes an instruction's two packed words. */
module InstructionDecoding {
  import opened Instructions

  class InstructionDecoder {
    const instruction: Word32
    var a: Word32
    var b: Word32

    ghost function View(): Packed
      reads this
    {
      Packed(a, b)
    }

    constructor (encoded: Word32)
      ensures instruction == encoded && View() == Decode(encoded)
    {
      instruction := encoded;
      a, b := 0, 0;
      new;
      DecodeWord();
    }

    method Write(t: InstructionType, rd: GuestReg, rs1: GuestReg, rs2: GuestReg, imm: Word32)
      modifies this`a, this`b
      ensures View() == SetDecoded(t, rd, rs1, rs2, imm)
    {
      a := TypeCode(t) + rd * 0x1_0000 + rs1 * 0x20_0000 + rs2 * 0x400_0000;
      b := imm;
    }

    /** A case without a break falls into the next one, as in the source. Nothing is written for an
        encoding no case accepts. */
    method DecodeI(opcode: Field7)
      requires opcode == Opcode(instruction) && opcode in {0x03, 0x0f, 0x13, 0x1b, 0x73, 0x67} && View() == UNDEFINED
      modifies this`a, this`b
      ensures View() == DecodeIType(instruction)
    {
      hide SetDecoded, ImmI, Shtype, Shamt, Funct7, Opcode;
      var imm, rd, rs1, funct3 := ImmI(instruction), Rd(instruction), Rs1(instruction), Funct3(instruction);
      var shamt, shtype, shamt32, shtype32 := Shamt(instruction), Shtype(instruction), Rs2(instruction),
        Funct7(instruction);
      if opcode == 0x13 {
        if funct3 == 0 { Write(Imm(Addi), rd, rs1, 0, imm); return; }
        if funct3 == 2 { Write(SetImm(false), rd, rs1, 0, imm); return; }
        if funct3 == 3 { Write(SetImm(true), rd, rs1, 0, imm); return; }
        if funct3 == 4 { Write(Imm(Xori), rd, rs1, 0, imm); return; }
        if funct3 == 6 { Write(Imm(Ori), rd, rs1, 0, imm); return; }
        if funct3 == 7 { Write(Imm(Andi), rd, rs1, 0, imm); return; }
        if funct3 == 1 && shtype == 0 { Write(Shift(Slli), rd, rs1, 0, shamt); return; }
        if funct3 == 5 && (shtype == 0 || shtype == 0x10) {
          Write(if shtype == 0 then Shift(Srli) else Shift(Srai), rd, rs1, 0, shamt);
          return;
        }
      }
      if opcode == 0x13 || opcode == 0x03 {
        if funct3 == 0 { Write(Load(Lb), rd, rs1, 0, imm); return; }
        if funct3 == 1 { Write(Load(Lh), rd, rs1, 0, imm); return; }
        if funct3 == 2 { Write(Load(Lw), rd, rs1, 0, imm); return; }
        if funct3 == 4 { Write(Load(Lbu), rd, rs1, 0, imm); return; }
        if funct3 == 5 { Write(Load(Lhu), rd, rs1, 0, imm); return; }
        if funct3 == 6 { Write(Load(Lwu), rd, rs1, 0, imm); return; }
        if funct3 == 3 { Write(Load(Ld), rd, rs1, 0, imm); return; }
      }
      if opcode == 0x13 || opcode == 0x03 || opcode == 0x1b {
        if funct3 == 0 { Write(Imm(Addiw), rd, rs1, 0, imm); return; }
        if funct3 == 1 && shtype32 == 0 { Write(Shift(Slliw), rd, rs1, 0, shamt32); return; }
        if funct3 == 5 && (shtype32 == 0 || shtype == 0x20) {
          Write(if shtype32 == 0 then Shift(Srliw) else Shift(Sraiw), rd, rs1, 0, shamt32);
        }
        return;
      }
      if opcode == 0x73 && funct3 == 0 && rs1 == 0 && rd == 0 && (imm == 0 || imm == 1) {
        Write(if imm == 0 then Ecall else Ebreak, 0, 0, 0, 0);
      }
      if opcode == 0x0f && funct3 == 0 { Write(Fence, rd, rs1, 0, imm); }
      if opcode == 0x67 && funct3 == 0 { Write(Jalr, rd, rs1, 0, imm); }
    }

    method DecodeU(opcode: Field7)
      requires opcode == Opcode(instruction) && (opcode == 0x37 || opcode == 0x17)
      modifies this`a, this`b
      ensures View() == DecodeUType(instruction)
    {
      hide SetDecoded, ImmU;
      Write(if opcode == 0x37 then Lui else Auipc, Rd(instruction), 0, 0, ImmU(instruction));
    }

    /** Nothing is written for a funct7 or funct3 no case accepts. */
    method DecodeR(opcode: Field7)
      requires opcode == Opcode(instruction) && (opcode == 0x33 || opcode == 0x3b) && View() == UNDEFINED
      modifies this`a, this`b
      ensures View() == DecodeRType(instruction)
    {
      hide SetDecoded, Funct7, Funct3, Opcode, Rd, Rs1, Rs2;
      var rd, rs1, rs2 := Rd(instruction), Rs1(instruction), Rs2(instruction);
      var funct3, funct7 := Funct3(instruction), Funct7(instruction);
      if opcode == 0x33 {
        if funct7 == 0 {
          if funct3 == 0 { Write(Reg(Add), rd, rs1, rs2, 0); return; }
          if funct3 == 1 { Write(Reg(Sll), rd, rs1, rs2, 0); return; }
          if funct3 == 2 { Write(Set(false), rd, rs1, rs2, 0); return; }
          if funct3 == 3 { Write(Set(true), rd, rs1, rs2, 0); return; }
          if funct3 == 4 { Write(Reg(Xor), rd, rs1, rs2, 0); return; }
          if funct3 == 5 { Write(Reg(Srl), rd, rs1, rs2, 0); return; }
          if funct3 == 6 { Write(Reg(Or), rd, rs1, rs2, 0); return; }
          if funct3 == 7 { Write(Reg(And), rd, rs1, rs2, 0); return; }
        }
        if funct7 == 0x20 {
          if funct3 == 0 { Write(Reg(Sub), rd, rs1, rs2, 0); return; }
          if funct3 == 5 { Write(Reg(Sra), rd, rs1, rs2, 0); return; }
        }
        if funct7 == 1 {
          if funct3 == 0 { Write(MulDiv(Mul), rd, rs1, rs2, 0); return; }
          if funct3 == 1 { Write(MulHigh(Mulh), rd, rs1, rs2, 0); return; }
          if funct3 == 2 { Write(MulHigh(Mulhsu), rd, rs1, rs2, 0); return; }
          if funct3 == 3 { Write(MulHigh(Mulhu), rd, rs1, rs2, 0); return; }
          if funct3 == 4 { Write(MulDiv(Div), rd, rs1, rs2, 0); return; }
          if funct3 == 5 { Write(MulDiv(Divu), rd, rs1, rs2, 0); return; }
          if funct3 == 6 { Write(MulDiv(Rem), rd, rs1, rs2, 0); return; }
          if funct3 == 7 { Write(MulDiv(Remu), rd, rs1, rs2, 0); return; }
        }
        return;
      }
      if funct7 == 0 {
        if funct3 == 0 { Write(Reg(Addw), rd, rs1, rs2, 0); return; }
        if funct3 == 1 { Write(Reg(Sllw), rd, rs1, rs2, 0); return; }
        if funct3 == 5 { Write(Reg(Srlw), rd, rs1, rs2, 0); return; }
      }
      if funct7 == 0x20 {
        if funct3 == 0 { Write(Reg(Subw), rd, rs1, rs2, 0); return; }
        if funct3 == 5 { Write(Reg(Sraw), rd, rs1, rs2, 0); return; }
      }
      if funct7 == 1 {
        if funct3 == 0 { Write(MulDiv(Mulw), rd, rs1, rs2, 0); return; }
        if funct3 == 4 { Write(MulDiv(Divw), rd, rs1, rs2, 0); return; }
        if funct3 == 5 { Write(MulDiv(Divuw), rd, rs1, rs2, 0); return; }
        if funct3 == 6 { Write(MulDiv(Remw), rd, rs1, rs2, 0); return; }
        if funct3 == 7 { Write(MulDiv(Remuw), rd, rs1, rs2, 0); return; }
      }
    }

    method DecodeS()
      requires View() == UNDEFINED
      modifies this`a, this`b
      ensures View() == DecodeSType(instruction)
    {
      hide SetDecoded, ImmS;
      var funct3 := Funct3(instruction);
      if funct3 <= 3 {
        Write(Store(if funct3 == 0 then Sb else if funct3 == 1 then Sh else if funct3 == 2 then Sw else Sd),
              0, Rs1(instruction), Rs2(instruction), ImmS(instruction));
      }
    }

    method DecodeB()
      requires View() == UNDEFINED
      modifies this`a, this`b
      ensures View() == DecodeBType(instruction)
    {
      hide SetDecoded, ImmB;
      var funct3 := Funct3(instruction);
      if funct3 != 2 && funct3 != 3 {
        Write(Branch(if funct3 == 0 then Beq else if funct3 == 1 then Bne else if funct3 == 4 then Blt
                     else if funct3 == 5 then Bge else if funct3 == 6 then Bltu else Bgeu),
              0, Rs1(instruction), Rs2(instruction), ImmB(instruction));
      }
    }

    method DecodeWord()
      modifies this`a, this`b
      ensures View() == Decode(instruction)
    {
      hide SetDecoded, DecodeIType, DecodeUType, DecodeRType, DecodeSType, DecodeBType, ImmJ;
      Write(Undefined, 0, 0, 0, 0);
      var opcode := Opcode(instruction);
      if opcode in {0x03, 0x0f, 0x13, 0x1b, 0x73, 0x67} {
        DecodeI(opcode);
      } else if opcode == 0x17 || opcode == 0x37 {
        DecodeU(opcode);
      } else if opcode == 0x33 || opcode == 0x3b {
        DecodeR(opcode);
      } else if opcode == 0x23 {
        DecodeS();
      } else if opcode == 0x63 {
        DecodeB();
      } else if opcode == 0x6f {
        Write(Jal, Rd(instruction), 0, 0, ImmJ(instruction));
      }
    }
  }
}
