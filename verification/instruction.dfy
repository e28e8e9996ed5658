/** Instruction words, the two packed words they decode to, and the accessors over those. */
module Instructions {
  import opened Words

  datatype BranchOp = Beq | Bne | Blt | Bge | Bltu | Bgeu
  datatype LoadOp = Lb | Lh | Lw | Ld | Lbu | Lhu | Lwu
  datatype StoreOp = Sb | Sh | Sw | Sd
  datatype ImmOp = Addi | Xori | Ori | Andi | Addiw
  datatype ShiftOp = Slli | Srli | Srai | Slliw | Srliw | Sraiw
  datatype RegOp = Add | Sub | Xor | Or | And | Sll | Srl | Sra | Addw | Subw | Sllw | Srlw | Sraw
  datatype MulDivOp = Mul | Mulw | Div | Divw | Divu | Divuw | Rem | Remu | Remw | Remuw
  datatype MulHighOp = Mulh | Mulhu | Mulhsu

  /** The instruction types, grouped as both engines switch over them. */
  datatype InstructionType =
    | Undefined
    | Lui | Auipc | Jal | Jalr
    | Branch(branch: BranchOp)
    | Load(load: LoadOp)
    | Store(store: StoreOp)
    | Imm(immOp: ImmOp)
    | Shift(shift: ShiftOp)
    | SetImm(unsignedImm: bool)   // Sltiu, Slti
    | Set(unsigned: bool)         // Sltu, Slt
    | Reg(regOp: RegOp)
    | MulDiv(mulDiv: MulDivOp)
    | MulHigh(mulHigh: MulHighOp)
    | Ebreak | Ecall | Fence

  type GuestReg = r: nat | r < 32

  /** A decoded instruction as the engines read it: imm() is signed, shamt() is the same field unsigned. */
  datatype Instruction = Instruction(op: InstructionType, rd: GuestReg, rs1: GuestReg, rs2: GuestReg,
                                     imm: int, shamt: nat)

  // ----- enumerator values, in declaration order of the source -----

  function BranchCode(b: BranchOp): nat {
    match b case Beq => 5 case Bne => 6 case Blt => 7 case Bge => 8 case Bltu => 9 case Bgeu => 10
  }
  function LoadCode(l: LoadOp): nat {
    match l case Lb => 11 case Lh => 12 case Lw => 13 case Ld => 14 case Lbu => 15 case Lhu => 16 case Lwu => 17
  }
  function StoreCode(s: StoreOp): nat {
    match s case Sb => 18 case Sh => 19 case Sw => 20 case Sd => 21
  }
  function ImmCode(i: ImmOp): nat {
    match i case Addi => 22 case Xori => 23 case Ori => 24 case Andi => 25 case Addiw => 26
  }
  function ShiftCode(s: ShiftOp): nat {
    match s case Slli => 27 case Srli => 28 case Srai => 29 case Slliw => 30 case Srliw => 31 case Sraiw => 32
  }
  function RegCode(r: RegOp): nat {
    match r
    case Add => 37 case Sub => 38 case Xor => 39 case Or => 40 case And => 41 case Sll => 42 case Srl => 43
    case Sra => 44 case Addw => 45 case Subw => 46 case Sllw => 47 case Srlw => 48 case Sraw => 49
  }
  function MulDivCode(m: MulDivOp): nat {
    match m
    case Mul => 53 case Mulw => 54 case Div => 58 case Divu => 59 case Divw => 60 case Divuw => 61
    case Rem => 62 case Remu => 63 case Remw => 64 case Remuw => 65
  }
  function MulHighCode(m: MulHighOp): nat {
    match m case Mulh => 55 case Mulhu => 56 case Mulhsu => 57
  }

  function TypeCode(t: InstructionType): (code: nat)
    ensures code < 66
  {
    match t
    case Undefined => 0 case Lui => 1 case Auipc => 2 case Jal => 3 case Jalr => 4
    case Branch(b) => BranchCode(b)
    case Load(l) => LoadCode(l)
    case Store(s) => StoreCode(s)
    case Imm(i) => ImmCode(i)
    case Shift(s) => ShiftCode(s)
    case SetImm(u) => if u then 34 else 33
    case Set(u) => if u then 36 else 35
    case Reg(r) => RegCode(r)
    case Ebreak => 50 case Ecall => 51 case Fence => 52
    case MulDiv(m) => MulDivCode(m)
    case MulHigh(m) => MulHighCode(m)
  }

  function BranchOf(c: nat): BranchOp {
    if c == 5 then Beq else if c == 6 then Bne else if c == 7 then Blt else if c == 8 then Bge
    else if c == 9 then Bltu else Bgeu
  }
  function LoadOf(c: nat): LoadOp {
    if c == 11 then Lb else if c == 12 then Lh else if c == 13 then Lw else if c == 14 then Ld
    else if c == 15 then Lbu else if c == 16 then Lhu else Lwu
  }
  function StoreOf(c: nat): StoreOp {
    if c == 18 then Sb else if c == 19 then Sh else if c == 20 then Sw else Sd
  }
  function ImmOf(c: nat): ImmOp {
    if c == 22 then Addi else if c == 23 then Xori else if c == 24 then Ori else if c == 25 then Andi else Addiw
  }
  function ShiftOf(c: nat): ShiftOp {
    if c == 27 then Slli else if c == 28 then Srli else if c == 29 then Srai else if c == 30 then Slliw
    else if c == 31 then Srliw else Sraiw
  }
  function RegOf(c: nat): RegOp {
    if c == 37 then Add else if c == 38 then Sub else if c == 39 then Xor else if c == 40 then Or
    else if c == 41 then And else if c == 42 then Sll else if c == 43 then Srl else if c == 44 then Sra
    else if c == 45 then Addw else if c == 46 then Subw else if c == 47 then Sllw else if c == 48 then Srlw else Sraw
  }
  function MulDivOf(c: nat): MulDivOp {
    if c == 53 then Mul else if c == 54 then Mulw else if c == 58 then Div else if c == 59 then Divu
    else if c == 60 then Divw else if c == 61 then Divuw else if c == 62 then Rem else if c == 63 then Remu
    else if c == 64 then Remw else Remuw
  }
  function MulHighOf(c: nat): MulHighOp {
    if c == 55 then Mulh else if c == 56 then Mulhu else Mulhsu
  }

  /** The enumerator with a given value. */
  function TypeOf(c: nat): InstructionType {
    if c == 1 then Lui else if c == 2 then Auipc else if c == 3 then Jal else if c == 4 then Jalr
    else if 5 <= c < 11 then Branch(BranchOf(c))
    else if 11 <= c < 18 then Load(LoadOf(c))
    else if 18 <= c < 22 then Store(StoreOf(c))
    else if 22 <= c < 27 then Imm(ImmOf(c))
    else if 27 <= c < 33 then Shift(ShiftOf(c))
    else if 33 <= c < 35 then SetImm(c == 34)
    else if 35 <= c < 37 then Set(c == 36)
    else if 37 <= c < 50 then Reg(RegOf(c))
    else if c == 50 then Ebreak else if c == 51 then Ecall else if c == 52 then Fence
    else if 55 <= c < 58 then MulHigh(MulHighOf(c))
    else if 53 <= c < 66 then MulDiv(MulDivOf(c))
    else Undefined
  }

  lemma TypeOfCode(t: InstructionType)
    ensures TypeOf(TypeCode(t)) == t
  {
    match t
    case Branch(b) => assert BranchOf(BranchCode(b)) == b;
    case Load(l) => assert LoadOf(LoadCode(l)) == l;
    case Store(s) => assert StoreOf(StoreCode(s)) == s;
    case Imm(i) => assert ImmOf(ImmCode(i)) == i;
    case Shift(s) => assert ShiftOf(ShiftCode(s)) == s;
    case Reg(r) => assert RegOf(RegCode(r)) == r;
    case MulDiv(m) => assert MulDivOf(MulDivCode(m)) == m;
    case MulHigh(m) => assert MulHighOf(MulHighCode(m)) == m;
    case _ =>
  }

  // ----- the packed form: fields of a uint32_t laid side by side, so that `|` is `+` -----

  type Word32 = w: nat | w < 0x1_0000_0000

  datatype Packed = Packed(a: Word32, b: Word32) {
    function Type(): InstructionType { TypeOf(a % 0x1_0000) }
    function Rd(): GuestReg { (a / 0x1_0000) % 32 }
    function Rs1(): GuestReg { (a / 0x20_0000) % 32 }
    function Rs2(): GuestReg { (a / 0x400_0000) % 32 }
  }

  function SetDecoded(t: InstructionType, rd: GuestReg, rs1: GuestReg, rs2: GuestReg, imm: Word32): Packed {
    Packed(TypeCode(t) + rd * 0x1_0000 + rs1 * 0x20_0000 + rs2 * 0x400_0000, imm)
  }

  function Accessors(p: Packed): Instruction {
    Instruction(p.Type(), p.Rd(), p.Rs1(), p.Rs2(), Signed32(p.b), p.b)
  }

  /** Reading the packed words back gives what was packed. */
  lemma PackedFields(t: InstructionType, rd: GuestReg, rs1: GuestReg, rs2: GuestReg, imm: Word32)
    ensures var p := SetDecoded(t, rd, rs1, rs2, imm);
            p.Type() == t && p.Rd() == rd && p.Rs1() == rs1 && p.Rs2() == rs2 && p.b == imm
  {
    hide TypeCode, TypeOf;
    var code := TypeCode(t);
    TypeOfCode(t);
    var a := SetDecoded(t, rd, rs1, rs2, imm).a;
    assert a % 0x1_0000 == code;
    assert a / 0x1_0000 == rd + 32 * (rs1 + 32 * rs2);
    assert a / 0x20_0000 == rs1 + 32 * rs2;
    assert a / 0x400_0000 == rs2;
  }

  // ----- fields of an instruction word -----

  type Field3 = n: nat | n < 8
  type Field7 = n: nat | n < 0x80

  function Opcode(w: Word32): Field7 { w % 0x80 }
  function Rd(w: Word32): GuestReg { (w / 0x80) % 32 }
  function Funct3(w: Word32): Field3 { (w / 0x1000) % 8 }
  function Rs1(w: Word32): GuestReg { (w / 0x8000) % 32 }
  function Rs2(w: Word32): GuestReg { (w / 0x10_0000) % 32 }
  function Funct7(w: Word32): Field7 { w / 0x200_0000 }
  /** The six bits above a 64-bit shift amount. */
  function Shtype(w: Word32): nat { w / 0x400_0000 }
  function Shamt(w: Word32): Word32 { (w / 0x10_0000) % 64 }

  /** sign32(w) shifted left: ones from the bit worth `low` up, when the word's top bit is set. */
  function SignBits(w: Word32, low: nat): Word32
    requires 0 < low <= 0x1_0000_0000
  {
    if w >= 0x8000_0000 then 0x1_0000_0000 - low else 0
  }

  function ImmI(w: Word32): Word32 { (w / 0x10_0000) % 0x800 + SignBits(w, 0x800) }
  function ImmU(w: Word32): Word32 { w - w % 0x1000 }
  function ImmS(w: Word32): Word32 { Rd(w) + 32 * (Funct7(w) % 64) + SignBits(w, 0x800) }
  function ImmB(w: Word32): Word32 {
    2 * (Rd(w) / 2) + 32 * (Funct7(w) % 64) + 0x800 * (Rd(w) % 2) + SignBits(w, 0x1000)
  }
  function ImmJ(w: Word32): Word32 {
    2 * ((w / 0x20_0000) % 0x400) + 0x800 * ((w / 0x10_0000) % 2) + 0x1000 * ((w / 0x1000) % 0x100)
    + SignBits(w, 0x10_0000)
  }

  // ----- decode_itype: the cases for opcodes 0x13, 0x03 and 0x1b fall through in that order -----

  function IType13(w: Word32): InstructionType {
    var f := Funct3(w);
    if f == 0 then Imm(Addi) else if f == 2 then SetImm(false) else if f == 3 then SetImm(true)
    else if f == 4 then Imm(Xori) else if f == 6 then Imm(Ori) else if f == 7 then Imm(Andi)
    else if f == 1 && Shtype(w) == 0 then Shift(Slli)
    else if f == 5 && Shtype(w) == 0 then Shift(Srli)
    else if f == 5 && Shtype(w) == 0x10 then Shift(Srai)
    else IType03(w)
  }

  function IType03(w: Word32): InstructionType {
    var f := Funct3(w);
    if f == 0 then Load(Lb) else if f == 1 then Load(Lh) else if f == 2 then Load(Lw) else if f == 4 then Load(Lbu)
    else if f == 5 then Load(Lhu) else if f == 6 then Load(Lwu) else if f == 3 then Load(Ld)
    else IType1b(w)
  }

  function IType1b(w: Word32): InstructionType {
    var f := Funct3(w);
    if f == 0 then Imm(Addiw)
    else if f == 1 && Funct7(w) == 0 then Shift(Slliw)
    else if f == 5 && Funct7(w) == 0 then Shift(Srliw)
    else if f == 5 && Shtype(w) == 0x20 then Shift(Sraiw)
    else Undefined
  }

  function IType(w: Word32): InstructionType {
    if Opcode(w) == 0x13 then IType13(w)
    else if Opcode(w) == 0x03 then IType03(w)
    else if Opcode(w) == 0x1b then IType1b(w)
    else if Funct3(w) != 0 then Undefined
    else if Opcode(w) == 0x0f then Fence
    else if Opcode(w) == 0x67 then Jalr
    else if Rs1(w) != 0 || Rd(w) != 0 then Undefined
    else if ImmI(w) == 0 then Ecall
    else if ImmI(w) == 1 then Ebreak
    else Undefined
  }

  /** Shifts carry the shift amount as their immediate. */
  function ITypeImm(t: InstructionType, w: Word32): Word32 {
    match t
    case Shift(s) => if s == Slli || s == Srli || s == Srai then Shamt(w) else Rs2(w)
    case Ecall => 0
    case Ebreak => 0
    case _ => ImmI(w)
  }

  const UNDEFINED: Packed := SetDecoded(Undefined, 0, 0, 0, 0)

  function DecodeIType(w: Word32): Packed {
    var t := IType(w);
    if t == Undefined then UNDEFINED else SetDecoded(t, Rd(w), Rs1(w), 0, ITypeImm(t, w))
  }

  function DecodeUType(w: Word32): Packed {
    SetDecoded(if Opcode(w) == 0x37 then Lui else Auipc, Rd(w), 0, 0, ImmU(w))
  }

  function RType33(funct7: Field7, f: Field3): InstructionType {
    if funct7 == 0 then
      if f == 0 then Reg(Add) else if f == 1 then Reg(Sll) else if f == 2 then Set(false) else if f == 3 then Set(true)
      else if f == 4 then Reg(Xor) else if f == 5 then Reg(Srl) else if f == 6 then Reg(Or) else Reg(And)
    else if funct7 == 0x20 then
      if f == 0 then Reg(Sub) else if f == 5 then Reg(Sra) else Undefined
    else if funct7 == 1 then
      if f == 0 then MulDiv(Mul) else if f == 1 then MulHigh(Mulh) else if f == 2 then MulHigh(Mulhsu)
      else if f == 3 then MulHigh(Mulhu) else if f == 4 then MulDiv(Div) else if f == 5 then MulDiv(Divu)
      else if f == 6 then MulDiv(Rem) else MulDiv(Remu)
    else Undefined
  }

  function RType3b(funct7: Field7, f: Field3): InstructionType {
    if funct7 == 0 then
      if f == 0 then Reg(Addw) else if f == 1 then Reg(Sllw) else if f == 5 then Reg(Srlw) else Undefined
    else if funct7 == 0x20 then
      if f == 0 then Reg(Subw) else if f == 5 then Reg(Sraw) else Undefined
    else if funct7 == 1 then
      if f == 0 then MulDiv(Mulw) else if f == 4 then MulDiv(Divw) else if f == 5 then MulDiv(Divuw)
      else if f == 6 then MulDiv(Remw) else if f == 7 then MulDiv(Remuw) else Undefined
    else Undefined
  }

  function DecodeRType(w: Word32): Packed {
    var t := if Opcode(w) == 0x33 then RType33(Funct7(w), Funct3(w)) else RType3b(Funct7(w), Funct3(w));
    if t == Undefined then UNDEFINED else SetDecoded(t, Rd(w), Rs1(w), Rs2(w), 0)
  }

  function DecodeSType(w: Word32): Packed {
    var f := Funct3(w);
    if f > 3 then UNDEFINED
    else SetDecoded(Store(if f == 0 then Sb else if f == 1 then Sh else if f == 2 then Sw else Sd),
                    0, Rs1(w), Rs2(w), ImmS(w))
  }

  function DecodeBType(w: Word32): Packed {
    var f := Funct3(w);
    if f == 2 || f == 3 then UNDEFINED
    else SetDecoded(Branch(if f == 0 then Beq else if f == 1 then Bne else if f == 4 then Blt
                           else if f == 5 then Bge else if f == 6 then Bltu else Bgeu),
                    0, Rs1(w), Rs2(w), ImmB(w))
  }

  function Decode(w: Word32): Packed {
    var opcode := Opcode(w);
    if opcode == 0x03 || opcode == 0x0f || opcode == 0x13 || opcode == 0x1b || opcode == 0x73 || opcode == 0x67 then
      DecodeIType(w)
    else if opcode == 0x17 || opcode == 0x37 then DecodeUType(w)
    else if opcode == 0x33 || opcode == 0x3b then DecodeRType(w)
    else if opcode == 0x23 then DecodeSType(w)
    else if opcode == 0x63 then DecodeBType(w)
    else if opcode == 0x6f then SetDecoded(Jal, Rd(w), 0, 0, ImmJ(w))
    else UNDEFINED
  }

  function Decoded(w: Word32): Instruction {
    Accessors(Decode(w))
  }

  // ----- the encodings of sections 2.2 and 2.3 of the RISC-V Unprivileged ISA 20191213 -----

  /** Six fields laid side by side, lowest first: the R layout, which the I, S and B layouts refine. */
  function Lay(opcode: Field7, rd: GuestReg, funct3: Field3, rs1: GuestReg, rs2: GuestReg, funct7: Field7): Word32 {
    opcode + 0x80 * rd + 0x1000 * funct3 + 0x8000 * rs1 + 0x10_0000 * rs2 + 0x200_0000 * funct7
  }

  function EncodeR(fields: (Field7, Field3, Field7), rd: GuestReg, rs1: GuestReg, rs2: GuestReg): Word32 {
    Lay(fields.0, rd, fields.1, rs1, rs2, fields.2)
  }

  function EncodeI(opcode: Field7, funct3: Field3, rd: GuestReg, rs1: GuestReg, imm: int): Word32 {
    Lay(opcode, rd, funct3, rs1, imm % 32, (imm / 32) % 0x80)
  }

  function EncodeS(funct3: Field3, rs1: GuestReg, rs2: GuestReg, imm: int): Word32 {
    Lay(0x23, imm % 32, funct3, rs1, rs2, (imm / 32) % 0x80)
  }

  function EncodeB(funct3: Field3, rs1: GuestReg, rs2: GuestReg, imm: int): Word32 {
    Lay(0x63, (imm / 0x800) % 2 + 2 * ((imm / 2) % 16), funct3, rs1, rs2, (imm / 32) % 64 + 64 * ((imm / 0x1000) % 2))
  }

  function EncodeU(opcode: Field7, rd: GuestReg, imm: int): Word32 {
    opcode + 0x80 * rd + 0x1000 * ((imm / 0x1000) % 0x10_0000)
  }

  function EncodeJ(rd: GuestReg, imm: int): Word32 {
    0x6f + 0x80 * rd + 0x1000 * ((imm / 0x1000) % 0x100) + 0x10_0000 * ((imm / 0x800) % 2)
    + 0x20_0000 * ((imm / 2) % 0x400) + 0x8000_0000 * ((imm / 0x10_0000) % 2)
  }

  function LoadFunct3(l: LoadOp): Field3 {
    match l case Lb => 0 case Lh => 1 case Lw => 2 case Ld => 3 case Lbu => 4 case Lhu => 5 case Lwu => 6
  }
  function StoreFunct3(s: StoreOp): Field3 {
    match s case Sb => 0 case Sh => 1 case Sw => 2 case Sd => 3
  }
  function BranchFunct3(b: BranchOp): Field3 {
    match b case Beq => 0 case Bne => 1 case Blt => 4 case Bge => 5 case Bltu => 6 case Bgeu => 7
  }
  function ImmFunct3(i: ImmOp): Field3 {
    match i case Addi => 0 case Xori => 4 case Ori => 6 case Andi => 7 case Addiw => 0
  }

  /** Opcode, funct3 and funct7 of the R-type instructions. */
  function RegFields(t: InstructionType): (Field7, Field3, Field7)
    requires t.Reg? || t.Set? || t.MulDiv? || t.MulHigh?
  {
    match t
    case Set(u) => (0x33, if u then 3 else 2, 0)
    case MulHigh(m) => (0x33, if m == Mulh then 1 else if m == Mulhsu then 2 else 3, 1)
    case MulDiv(m) => (
      match m
      case Mul => (0x33, 0, 1) case Div => (0x33, 4, 1) case Divu => (0x33, 5, 1) case Rem => (0x33, 6, 1)
      case Remu => (0x33, 7, 1) case Mulw => (0x3b, 0, 1) case Divw => (0x3b, 4, 1) case Divuw => (0x3b, 5, 1)
      case Remw => (0x3b, 6, 1) case Remuw => (0x3b, 7, 1))
    case Reg(r) =>
      match r
      case Add => (0x33, 0, 0) case Sub => (0x33, 0, 0x20) case Sll => (0x33, 1, 0) case Xor => (0x33, 4, 0)
      case Srl => (0x33, 5, 0) case Sra => (0x33, 5, 0x20) case Or => (0x33, 6, 0) case And => (0x33, 7, 0)
      case Addw => (0x3b, 0, 0) case Subw => (0x3b, 0, 0x20) case Sllw => (0x3b, 1, 0)
      case Srlw => (0x3b, 5, 0) case Sraw => (0x3b, 5, 0x20)
  }

  predicate WideShift(s: ShiftOp) { s == Slli || s == Srli || s == Srai }

  /** Operands the ISA allows: fields a format lacks are zero, immediates fit. */
  predicate Encodable(t: InstructionType, rd: GuestReg, rs1: GuestReg, rs2: GuestReg, imm: int) {
    match t
    case Undefined => false
    case Lui => rs1 == rs2 == 0 && imm % 0x1000 == 0 && -0x8000_0000 <= imm < 0x8000_0000
    case Auipc => rs1 == rs2 == 0 && imm % 0x1000 == 0 && -0x8000_0000 <= imm < 0x8000_0000
    case Jal => rs1 == rs2 == 0 && imm % 2 == 0 && -0x10_0000 <= imm < 0x10_0000
    case Branch(_) => rd == 0 && imm % 2 == 0 && -0x1000 <= imm < 0x1000
    case Store(_) => rd == 0 && -0x800 <= imm < 0x800
    case Shift(s) => rs2 == 0 && 0 <= imm < (if WideShift(s) then 64 else 32)
    case Ecall => rd == rs1 == rs2 == imm == 0
    case Ebreak => rd == rs1 == rs2 == imm == 0
    case Jalr => rs2 == 0 && -0x800 <= imm < 0x800
    case Load(_) => rs2 == 0 && -0x800 <= imm < 0x800
    case Imm(_) => rs2 == 0 && -0x800 <= imm < 0x800
    case SetImm(_) => rs2 == 0 && -0x800 <= imm < 0x800
    case Fence => rs2 == 0 && -0x800 <= imm < 0x800
    case _ => imm == 0
  }

  function Encode(t: InstructionType, rd: GuestReg, rs1: GuestReg, rs2: GuestReg, imm: int): Word32
    requires t != Undefined
  {
    match t
    case Lui => EncodeU(0x37, rd, imm)
    case Auipc => EncodeU(0x17, rd, imm)
    case Jal => EncodeJ(rd, imm)
    case Jalr => EncodeI(0x67, 0, rd, rs1, imm)
    case Branch(b) => EncodeB(BranchFunct3(b), rs1, rs2, imm)
    case Load(l) => EncodeI(0x03, LoadFunct3(l), rd, rs1, imm)
    case Store(s) => EncodeS(StoreFunct3(s), rs1, rs2, imm)
    case Imm(i) => EncodeI(if i == Addiw then 0x1b else 0x13, ImmFunct3(i), rd, rs1, imm)
    case SetImm(u) => EncodeI(0x13, if u then 3 else 2, rd, rs1, imm)
    case Shift(s) => EncodeI(if WideShift(s) then 0x13 else 0x1b, if s == Slli || s == Slliw then 1 else 5, rd, rs1,
                             if s == Srai || s == Sraiw then imm + 0x400 else imm)
    case Fence => EncodeI(0x0f, 0, rd, rs1, imm)
    case Ecall => EncodeI(0x73, 0, 0, 0, 0)
    case Ebreak => EncodeI(0x73, 0, 0, 0, 1)
    case Reg(_) => EncodeR(RegFields(t), rd, rs1, rs2)
    case Set(_) => EncodeR(RegFields(t), rd, rs1, rs2)
    case MulDiv(_) => EncodeR(RegFields(t), rd, rs1, rs2)
    case MulHigh(_) => EncodeR(RegFields(t), rd, rs1, rs2)
  }

  // ----- reading the fields of an encoded word -----

  /** The uint32_t holding a signed immediate. */
  function Bits32(imm: int): Word32 { imm % 0x1_0000_0000 }

  lemma LaidFields(opcode: Field7, rd: GuestReg, funct3: Field3, rs1: GuestReg, rs2: GuestReg, funct7: Field7,
                   w: Word32)
    requires w == Lay(opcode, rd, funct3, rs1, rs2, funct7)
    ensures Opcode(w) == opcode && Rd(w) == rd && Funct3(w) == funct3 && Rs1(w) == rs1 && Rs2(w) == rs2
    ensures Funct7(w) == funct7 && Shtype(w) == funct7 / 2 && w / 0x10_0000 == rs2 + 32 * funct7
    ensures w >= 0x8000_0000 <==> funct7 >= 0x40
  {
    var r4 := rs2 + 32 * funct7;
    var r3 := rs1 + 32 * r4;
    var r2 := funct3 + 8 * r3;
    var r1 := rd + 32 * r2;
    DivUnique(w, 0x80, r1, opcode);
    DivUnique(w, 0x1000, r2, opcode + 0x80 * rd);
    DivUnique(w, 0x8000, r3, opcode + 0x80 * rd + 0x1000 * funct3);
    DivUnique(w, 0x10_0000, r4, opcode + 0x80 * rd + 0x1000 * funct3 + 0x8000 * rs1);
    DivUnique(w, 0x200_0000, funct7, opcode + 0x80 * rd + 0x1000 * funct3 + 0x8000 * rs1 + 0x10_0000 * rs2);
  }

  /** A signed 12-bit immediate is put together again from its low five and high seven bits. */
  lemma LowAndHigh(imm: int, low: nat, high: nat)
    requires -0x800 <= imm < 0x800 && low == imm % 32 && high == (imm / 32) % 0x80
    ensures high < 0x80 && imm == low + 32 * (high % 64) - (if high >= 64 then 0x800 else 0)
  {
    var h := imm / 32;
    assert imm == 32 * h + low;
    assert high == if imm < 0 then h + 0x80 else h;
  }

  lemma ImmediateI(w: Word32, low: GuestReg, high: Field7)
    requires w / 0x10_0000 == low + 32 * high && (w >= 0x8000_0000 <==> high >= 64)
    ensures ImmI(w) == Bits32(low + 32 * (high % 64) - (if high >= 64 then 0x800 else 0))
    ensures Shamt(w) == low + 32 * (high % 2)
  {
    assert (low + 32 * high) % 0x800 == low + 32 * (high % 64);
    assert (low + 32 * high) % 64 == low + 32 * (high % 2);
  }

  lemma FieldsI(opcode: Field7, funct3: Field3, rd: GuestReg, rs1: GuestReg, imm: int, w: Word32)
    requires w == EncodeI(opcode, funct3, rd, rs1, imm)
    ensures Opcode(w) == opcode && Rd(w) == rd && Funct3(w) == funct3 && Rs1(w) == rs1 && Rs2(w) == imm % 32
    ensures -0x800 <= imm < 0x800 ==> ImmI(w) == Bits32(imm)
    ensures var high := (imm / 32) % 0x80;
            Funct7(w) == high && Shtype(w) == high / 2 && Shamt(w) == imm % 32 + 32 * (high % 2)
  {
    hide Lay, Opcode, Rd, Funct3, Rs1, Rs2, Funct7, Shtype, Shamt, ImmI, Bits32;
    var low, high := imm % 32, (imm / 32) % 0x80;
    LaidFields(opcode, rd, funct3, rs1, low, high, w);
    ImmediateI(w, low, high);
    if -0x800 <= imm < 0x800 {
      LowAndHigh(imm, low, high);
    }
  }

  lemma FieldsS(funct3: Field3, rs1: GuestReg, rs2: GuestReg, imm: int, w: Word32)
    requires -0x800 <= imm < 0x800 && w == EncodeS(funct3, rs1, rs2, imm)
    ensures Opcode(w) == 0x23 && Funct3(w) == funct3 && Rs1(w) == rs1 && Rs2(w) == rs2 && ImmS(w) == Bits32(imm)
  {
    hide Lay, Opcode, Rd, Funct3, Rs1, Rs2, Funct7;
    var low, high := imm % 32, (imm / 32) % 0x80;
    LaidFields(0x23, low, funct3, rs1, rs2, high, w);
    LowAndHigh(imm, low, high);
  }

  lemma SplitB(imm: int)
    requires imm % 2 == 0 && -0x1000 <= imm < 0x1000
    ensures (imm / 0x1000) % 2 == (if imm < 0 then 1 else 0)
    ensures imm == 2 * ((imm / 2) % 16) + 32 * ((imm / 32) % 64)
            + 0x800 * ((imm / 0x800) % 2) - 0x1000 * ((imm / 0x1000) % 2)
  {
    assert imm / 0x800 / 2 == imm / 0x1000;
    assert imm / 32 / 64 == imm / 0x800;
    assert imm / 2 / 16 == imm / 32;
  }

  lemma FieldsB(funct3: Field3, rs1: GuestReg, rs2: GuestReg, imm: int, w: Word32)
    requires imm % 2 == 0 && -0x1000 <= imm < 0x1000 && w == EncodeB(funct3, rs1, rs2, imm)
    ensures Opcode(w) == 0x63 && Funct3(w) == funct3 && Rs1(w) == rs1 && Rs2(w) == rs2 && ImmB(w) == Bits32(imm)
  {
    hide Lay, Opcode, Rd, Rs1, Rs2, Funct3, Funct7, ImmB, Bits32;
    var a, b, c, d := (imm / 2) % 16, (imm / 32) % 64, (imm / 0x800) % 2, (imm / 0x1000) % 2;
    SplitB(imm);
    LaidFields(0x63, c + 2 * a, funct3, rs1, rs2, b + 64 * d, w);
    ImmediateB(w, a, b, c, d);
  }

  lemma ImmediateB(w: Word32, a: nat, b: nat, c: nat, d: nat)
    requires a < 16 && b < 64 && c < 2 && d < 2
    requires Rd(w) == c + 2 * a && Funct7(w) == b + 64 * d && (w >= 0x8000_0000 <==> d == 1)
    ensures ImmB(w) == Bits32(2 * a + 32 * b + 0x800 * c - 0x1000 * d)
  {
    hide Rd, Funct7;
    assert Rd(w) / 2 == a && Rd(w) % 2 == c && Funct7(w) % 64 == b;
  }

  lemma FieldsU(opcode: Field7, rd: GuestReg, imm: int, w: Word32)
    requires imm % 0x1000 == 0 && -0x8000_0000 <= imm < 0x8000_0000 && w == EncodeU(opcode, rd, imm)
    ensures Opcode(w) == opcode && Rd(w) == rd && ImmU(w) == Bits32(imm)
  {
    var q := (imm / 0x1000) % 0x10_0000;
    assert 0x1000 * q == Bits32(imm) by {
      assert imm == 0x1000 * (imm / 0x1000);
    }
    LaidU(opcode, rd, q, w);
  }

  lemma LaidU(opcode: Field7, rd: GuestReg, q: nat, w: Word32)
    requires w == opcode + 0x80 * rd + 0x1000 * q
    ensures Opcode(w) == opcode && Rd(w) == rd && w - w % 0x1000 == 0x1000 * q
  {
    assert w / 0x80 == rd + 32 * q;
    assert w % 0x1000 == opcode + 0x80 * rd;
  }

  lemma SplitJ(imm: int)
    requires imm % 2 == 0 && -0x10_0000 <= imm < 0x10_0000
    ensures (imm / 0x10_0000) % 2 == (if imm < 0 then 1 else 0)
    ensures imm == 2 * ((imm / 2) % 0x400) + 0x800 * ((imm / 0x800) % 2) + 0x1000 * ((imm / 0x1000) % 0x100)
                   - 0x10_0000 * ((imm / 0x10_0000) % 2)
  {
    assert imm / 0x1000 / 0x100 == imm / 0x10_0000;
    assert imm / 0x800 / 2 == imm / 0x1000;
    assert imm / 2 / 0x400 == imm / 0x800;
  }

  lemma LaidJ(rd: GuestReg, a: nat, b: nat, c: nat, d: nat, w: Word32)
    requires a < 0x100 && b < 2 && c < 0x400 && d < 2
    requires w == 0x6f + 0x80 * rd + 0x1000 * a + 0x10_0000 * b + 0x20_0000 * c + 0x8000_0000 * d
    ensures Opcode(w) == 0x6f && Rd(w) == rd
    ensures (w / 0x1000) % 0x100 == a && (w / 0x10_0000) % 2 == b && (w / 0x20_0000) % 0x400 == c
    ensures w >= 0x8000_0000 <==> d == 1
  {
    var r4 := c + 0x400 * d;
    var r3 := b + 2 * r4;
    var r2 := a + 0x100 * r3;
    var r1 := rd + 32 * r2;
    assert w == 0x6f + 0x80 * r1 == (0x6f + 0x80 * rd) + 0x1000 * r2;
    assert w == (0x6f + 0x80 * rd + 0x1000 * a) + 0x10_0000 * r3 == (0x6f + 0x80 * rd + 0x1000 * a + 0x10_0000 * b)
      + 0x20_0000 * r4;
    DivUnique(w, 0x80, r1, 0x6f);
    DivUnique(w, 0x1000, r2, 0x6f + 0x80 * rd);
    DivUnique(w, 0x10_0000, r3, 0x6f + 0x80 * rd + 0x1000 * a);
    DivUnique(w, 0x20_0000, r4, 0x6f + 0x80 * rd + 0x1000 * a + 0x10_0000 * b);
  }

  lemma FieldsJ(rd: GuestReg, imm: int, w: Word32)
    requires imm % 2 == 0 && -0x10_0000 <= imm < 0x10_0000 && w == EncodeJ(rd, imm)
    ensures Opcode(w) == 0x6f && Rd(w) == rd && ImmJ(w) == Bits32(imm)
  {
    hide Opcode, Rd, ImmJ, Bits32;
    var a, b, c, d := (imm / 0x1000) % 0x100, (imm / 0x800) % 2, (imm / 2) % 0x400, (imm / 0x10_0000) % 2;
    SplitJ(imm);
    LaidJ(rd, a, b, c, d, w);
    ImmediateJ(w, a, b, c, d);
  }

  lemma ImmediateJ(w: Word32, a: nat, b: nat, c: nat, d: nat)
    requires a < 0x100 && b < 2 && c < 0x400 && d < 2
    requires (w / 0x1000) % 0x100 == a && (w / 0x10_0000) % 2 == b && (w / 0x20_0000) % 0x400 == c
             && (w >= 0x8000_0000 <==> d == 1)
    ensures ImmJ(w) == Bits32(2 * c + 0x800 * b + 0x1000 * a - 0x10_0000 * d)
  {
  }

  // ----- decoding an encoded instruction, family by family -----

  lemma DecodesR(t: InstructionType, rd: GuestReg, rs1: GuestReg, rs2: GuestReg)
    requires t.Reg? || t.Set? || t.MulDiv? || t.MulHigh?
    ensures Decode(Encode(t, rd, rs1, rs2, 0)) == SetDecoded(t, rd, rs1, rs2, 0)
  {
    hide Lay, SetDecoded, Opcode, Rd, Rs1, Rs2, Funct3, Funct7;
    var w := Encode(t, rd, rs1, rs2, 0);
    var (opcode, funct3, funct7) := RegFields(t);
    LaidFields(opcode, rd, funct3, rs1, rs2, funct7, w);
  }

  lemma DecodesI(t: InstructionType, rd: GuestReg, rs1: GuestReg, imm: int)
    requires t.Load? || t.Imm? || t.SetImm? || t.Jalr? || t.Fence?
    requires -0x800 <= imm < 0x800
    ensures Decode(Encode(t, rd, rs1, 0, imm)) == SetDecoded(t, rd, rs1, 0, Bits32(imm))
  {
    hide EncodeI, SetDecoded, Opcode, Rd, Rs1, Rs2, Funct3, Funct7, Shtype, Shamt, ImmI, Bits32;
    var w := Encode(t, rd, rs1, 0, imm);
    match t
    case Load(l) => FieldsI(0x03, LoadFunct3(l), rd, rs1, imm, w);
    case Imm(i) => FieldsI(if i == Addiw then 0x1b else 0x13, ImmFunct3(i), rd, rs1, imm, w);
    case SetImm(u) => FieldsI(0x13, if u then 3 else 2, rd, rs1, imm, w);
    case Jalr => FieldsI(0x67, 0, rd, rs1, imm, w);
    case Fence => FieldsI(0x0f, 0, rd, rs1, imm, w);
  }

  lemma ShiftHigh(imm: int)
    requires 0 <= imm < 64
    ensures (imm / 32) % 0x80 == imm / 32 && (imm / 32) % 0x80 / 2 == 0
    ensures imm % 32 + 32 * (imm / 32 % 2) == imm && (imm < 32 ==> imm / 32 == 0)
    ensures (imm + 0x400) % 32 == imm % 32 && ((imm + 0x400) / 32) % 0x80 == imm / 32 + 0x20
    ensures (imm / 32 + 0x20) / 2 == 0x10 && (imm / 32 + 0x20) % 2 == imm / 32 % 2
  {
  }

  lemma FieldsShift(opcode: Field7, funct3: Field3, rd: GuestReg, rs1: GuestReg, imm: int, arithmetic: bool, w: Word32)
    requires 0 <= imm < 64 && w == EncodeI(opcode, funct3, rd, rs1, if arithmetic then imm + 0x400 else imm)
    ensures Opcode(w) == opcode && Rd(w) == rd && Funct3(w) == funct3 && Rs1(w) == rs1
    ensures Shamt(w) == imm && Shtype(w) == (if arithmetic then 0x10 else 0)
    ensures imm < 32 ==> Rs2(w) == imm && Funct7(w) == (if arithmetic then 0x20 else 0)
  {
    hide EncodeI, Opcode, Rd, Rs1, Rs2, Funct3, Funct7, Shtype, Shamt, ImmI;
    ShiftHigh(imm);
    FieldsI(opcode, funct3, rd, rs1, if arithmetic then imm + 0x400 else imm, w);
  }

  lemma DecodesShift(s: ShiftOp, rd: GuestReg, rs1: GuestReg, imm: int)
    requires s != Sraiw && 0 <= imm < (if WideShift(s) then 64 else 32)
    ensures Decode(Encode(Shift(s), rd, rs1, 0, imm)) == SetDecoded(Shift(s), rd, rs1, 0, imm)
  {
    hide EncodeI, SetDecoded, Opcode, Rd, Rs1, Rs2, Funct3, Funct7, Shtype, Shamt, ImmI;
    FieldsShift(if WideShift(s) then 0x13 else 0x1b, if s == Slli || s == Slliw then 1 else 5, rd, rs1, imm, s == Srai,
                Encode(Shift(s), rd, rs1, 0, imm));
  }

  lemma DecodesRest(t: InstructionType, rd: GuestReg, rs1: GuestReg, rs2: GuestReg, imm: int)
    requires t.Lui? || t.Auipc? || t.Jal? || t.Branch? || t.Store? || t.Ecall? || t.Ebreak?
    requires Encodable(t, rd, rs1, rs2, imm)
    ensures Decode(Encode(t, rd, rs1, rs2, imm)) == SetDecoded(t, rd, rs1, rs2, Bits32(imm))
  {
    hide EncodeI, EncodeS, EncodeB, EncodeU, EncodeJ, SetDecoded, Opcode, Rd, Rs1, Rs2, Funct3, Funct7, Shtype, Shamt,
      ImmI, ImmS, ImmB, ImmU, ImmJ;
    var w := Encode(t, rd, rs1, rs2, imm);
    match t
    case Lui => FieldsU(0x37, rd, imm, w);
    case Auipc => FieldsU(0x17, rd, imm, w);
    case Jal => FieldsJ(rd, imm, w);
    case Branch(b) => FieldsB(BranchFunct3(b), rs1, rs2, imm, w);
    case Store(s) => FieldsS(StoreFunct3(s), rs1, rs2, imm, w);
    case Ecall => FieldsI(0x73, 0, 0, 0, 0, w);
    case Ebreak => FieldsI(0x73, 0, 0, 0, 1, w);
  }

  /** Decoding an encoded instruction and reading the accessors gives back its type, its registers and
      its whole sign-extended immediate, for every instruction but Sraiw. */
  lemma DecodeEncode(t: InstructionType, rd: GuestReg, rs1: GuestReg, rs2: GuestReg, imm: int)
    requires t != Undefined && t != Shift(Sraiw) && Encodable(t, rd, rs1, rs2, imm)
    ensures var i := Decoded(Encode(t, rd, rs1, rs2, imm));
            i.op == t && i.rd == rd && i.rs1 == rs1 && i.rs2 == rs2
            && (if t == Ebreak then i.imm == 0 else i.imm == imm) && (t.Shift? ==> i.shamt == imm)
  {
    hide Decode, Encode, SetDecoded, Packed.Type, Packed.Rd, Packed.Rs1, Packed.Rs2;
    PackedFields(t, rd, rs1, rs2, Bits32(imm));
    if t.Reg? || t.Set? || t.MulDiv? || t.MulHigh? {
      DecodesR(t, rd, rs1, rs2);
    } else if t.Shift? {
      DecodesShift(t.shift, rd, rs1, imm);
    } else if t.Load? || t.Imm? || t.SetImm? || t.Jalr? || t.Fence? {
      DecodesI(t, rd, rs1, imm);
    } else {
      DecodesRest(t, rd, rs1, rs2, imm);
    }
  }

  /** Sraiw does not round trip: its test compares the six bits above the shift amount with 0x20, while
      its own encoding has 0x10 there, so the encoding decodes as Undefined. */
  lemma SraiwDecodesAsUndefined(rd: GuestReg, rs1: GuestReg, imm: int)
    requires 0 <= imm < 32
    ensures Decode(Encode(Shift(Sraiw), rd, rs1, 0, imm)) == UNDEFINED
  {
    hide EncodeI, SetDecoded, Opcode, Rd, Rs1, Rs2, Funct3, Funct7, Shtype, Shamt, ImmI;
    var w := Encode(Shift(Sraiw), rd, rs1, 0, imm);
    FieldsShift(0x1b, 5, rd, rs1, imm, true, w);
  }
}
