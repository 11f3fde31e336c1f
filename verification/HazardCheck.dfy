/** The C++ pipeline model's hazard predicate, and its agreement with the Chisel controller. */
module HazardCheck {
  import opened Words
  import opened Rv32Datapath
  import opened Pipeline
  import Isa = Rv32i

  datatype Mnemonic =
    | UNIMPL | ADD | ADDI | AND | ANDI | AUIPC | BEQ | BGE | BGEU | BLT | BLTU | BNE | JAL | JALR
    | LB | LBU | LH | LHU | LUI | LW | OR | ORI | SB | SH | SLL | SLLI | SLT | SLTI | SLTIU | SLTU
    | SRA | SRAI | SRL | SRLI | SUB | SW | XOR | XORI | HCF

  /** A parsed instruction: the register numbers of its three operands. */
  datatype Instr = Instr(op: Mnemonic, a1: int, a2: int, a3: int)

  predicate IsRegister(op: Mnemonic) {
    op.ADD? || op.SUB? || op.AND? || op.OR? || op.XOR? || op.SLT? || op.SLTU? || op.SLL? || op.SRL? || op.SRA?
  }

  predicate IsImmediate(op: Mnemonic) {
    op.ADDI? || op.ANDI? || op.ORI? || op.XORI? || op.SLTI? || op.SLTIU? || op.SLLI? || op.SRLI? || op.SRAI?
  }

  predicate IsLoadOp(op: Mnemonic) { op.LB? || op.LH? || op.LW? || op.LBU? || op.LHU? }
  predicate IsStoreOp(op: Mnemonic) { op.SB? || op.SH? || op.SW? }
  predicate IsBranchOp(op: Mnemonic) { op.BEQ? || op.BNE? || op.BLT? || op.BGE? || op.BLTU? || op.BGEU? }

  function GetDestReg(i: Instr): int {
    if IsRegister(i.op) || IsImmediate(i.op) || IsLoadOp(i.op) then i.a1
    else if i.op.LUI? || i.op.AUIPC? || i.op.JAL? || i.op.JALR? then i.a1
    else 0
  }

  predicate IsRs1Used(i: Instr) {
    IsRegister(i.op) || IsBranchOp(i.op) || IsStoreOp(i.op) || IsImmediate(i.op) || IsLoadOp(i.op) || i.op.JALR?
  }

  predicate IsRs2Used(i: Instr) {
    IsRegister(i.op) || IsBranchOp(i.op) || IsStoreOp(i.op)
  }

  predicate CheckRAW(rd: int, i: Instr) {
    var (rs1, rs2) :=
      if IsRegister(i.op) then (i.a2, i.a3)
      else if IsImmediate(i.op) || IsLoadOp(i.op) || i.op.JALR? then (i.a2, 0)
      else if IsStoreOp(i.op) || IsBranchOp(i.op) then (i.a1, i.a2)
      else (0, 0);
    rd != 0 && (rs1 == rd || rs2 == rd)
  }

  predicate DependsOn(rd: int, i: Instr) {
    (IsRs1Used(i) && CheckRAW(rd, i)) || (IsRs2Used(i) && CheckRAW(rd, i))
  }

  function DestOf(p: Option<Instr>): int { if p.Some? then GetDestReg(p.value) else 0 }

  /** The stalls of the fetch, decode and execute stages. */
  function Check(id: Option<Instr>, exe: Option<Instr>, mem: Option<Instr>, wb: Option<Instr>): (bool, bool, bool) {
    if id.Some? && (DependsOn(DestOf(exe), id.value) || DependsOn(DestOf(mem), id.value)
      || DependsOn(DestOf(wb), id.value))
    then (true, true, true)
    else (false, false, false)
  }

  // ---- Machine words ----

  /** The register form: funct7, rs2, rs1, funct3, rd, opcode. */
  predicate IsR(w: Word, i: Instr, f3: int, f7: int) {
    && w % 128 == 0x33 && w / 4096 % 8 == f3 && w / 33554432 == f7
    && i.a1 == w / 128 % 32 && i.a2 == w / 32768 % 32 && i.a3 == w / 1048576 % 32
  }

  /** The immediate form: of the registers it has rd and rs1. */
  predicate IsI(w: Word, i: Instr, opcode: int, f3: int) {
    w % 128 == opcode && w / 4096 % 8 == f3 && i.a1 == w / 128 % 32 && i.a2 == w / 32768 % 32
  }

  predicate IsShift(w: Word, i: Instr, f3: int, f7: int) { IsI(w, i, 0x13, f3) && w / 33554432 == f7 }

  /** A store's data register comes first in the source line and is rs2 of the word. */
  predicate IsS(w: Word, i: Instr, f3: int) {
    w % 128 == 0x23 && w / 4096 % 8 == f3 && i.a1 == w / 1048576 % 32 && i.a2 == w / 32768 % 32
  }

  predicate IsB(w: Word, i: Instr, f3: int) {
    w % 128 == 0x63 && w / 4096 % 8 == f3 && i.a1 == w / 32768 % 32 && i.a2 == w / 1048576 % 32
  }

  predicate IsU(w: Word, i: Instr, opcode: int) { w % 128 == opcode && i.a1 == w / 128 % 32 }

  /** `w` is a machine word of `i`, up to its immediate. */
  predicate Encodes(w: Word, i: Instr) {
    match i.op
    case ADD => IsR(w, i, 0, 0)
    case SUB => IsR(w, i, 0, 32)
    case SLL => IsR(w, i, 1, 0)
    case SLT => IsR(w, i, 2, 0)
    case SLTU => IsR(w, i, 3, 0)
    case XOR => IsR(w, i, 4, 0)
    case SRL => IsR(w, i, 5, 0)
    case SRA => IsR(w, i, 5, 32)
    case OR => IsR(w, i, 6, 0)
    case AND => IsR(w, i, 7, 0)
    case ADDI => IsI(w, i, 0x13, 0)
    case SLTI => IsI(w, i, 0x13, 2)
    case SLTIU => IsI(w, i, 0x13, 3)
    case XORI => IsI(w, i, 0x13, 4)
    case ORI => IsI(w, i, 0x13, 6)
    case ANDI => IsI(w, i, 0x13, 7)
    case SLLI => IsShift(w, i, 1, 0)
    case SRLI => IsShift(w, i, 5, 0)
    case SRAI => IsShift(w, i, 5, 32)
    case LB => IsI(w, i, 0x03, 0)
    case LH => IsI(w, i, 0x03, 1)
    case LW => IsI(w, i, 0x03, 2)
    case LBU => IsI(w, i, 0x03, 4)
    case LHU => IsI(w, i, 0x03, 5)
    case SB => IsS(w, i, 0)
    case SH => IsS(w, i, 1)
    case SW => IsS(w, i, 2)
    case BEQ => IsB(w, i, 0)
    case BNE => IsB(w, i, 1)
    case BLT => IsB(w, i, 4)
    case BGE => IsB(w, i, 5)
    case BLTU => IsB(w, i, 6)
    case BGEU => IsB(w, i, 7)
    case JALR => IsI(w, i, 0x67, 0)
    case JAL => IsU(w, i, 0x6F)
    case LUI => IsU(w, i, 0x37)
    case AUIPC => IsU(w, i, 0x17)
    case HCF => w % 128 == 0x0B
    case UNIMPL => w % 128 !in {0x33, 0x13, 0x03, 0x23, 0x63, 0x67, 0x6F, 0x37, 0x17, 0x0B}
  }

  /** A word with these fields. */
  lemma FieldsPut(f7: nat, rs2: nat, rs1: nat, f3: nat, rd: nat, opcode: nat) returns (w: Word)
    requires f7 < 128 && rs2 < 32 && rs1 < 32 && f3 < 8 && rd < 32 && opcode < 128
    ensures w % 128 == opcode && w / 128 % 32 == rd && w / 4096 % 8 == f3
    ensures w / 32768 % 32 == rs1 && w / 1048576 % 32 == rs2 && w / 33554432 == f7
  {
    var b := f7 * 32 + rs2;
    var c := b * 32 + rs1;
    var d := c * 8 + f3;
    var e := d * 32 + rd;
    w := e * 128 + opcode;
    Quotients(w, e, d, c, b, f7);
  }

  lemma Quotients(w: nat, e: nat, d: nat, c: nat, b: nat, a: nat)
    requires w / 128 == e && e / 32 == d && d / 8 == c && c / 32 == b && b / 32 == a
    ensures w / 4096 == d && w / 32768 == c && w / 1048576 == b && w / 33554432 == a
  {}

  lemma RWord(i: Instr, f3: nat, f7: nat) returns (w: Word)
    requires InFile(i) && f3 < 8 && f7 < 128
    ensures IsR(w, i, f3, f7)
  {
    w := FieldsPut(f7, i.a3, i.a2, f3, i.a1, 0x33);
  }

  lemma IWord(i: Instr, opcode: nat, f3: nat, f7: nat) returns (w: Word)
    requires InFile(i) && opcode < 128 && f3 < 8 && f7 < 128
    ensures IsI(w, i, opcode, f3) && w / 33554432 == f7
  {
    w := FieldsPut(f7, 0, i.a2, f3, i.a1, opcode);
  }

  lemma SWord(i: Instr, f3: nat) returns (w: Word)
    requires InFile(i) && f3 < 8
    ensures IsS(w, i, f3)
  {
    w := FieldsPut(0, i.a1, i.a2, f3, 0, 0x23);
  }

  lemma BWord(i: Instr, f3: nat) returns (w: Word)
    requires InFile(i) && f3 < 8
    ensures IsB(w, i, f3)
  {
    w := FieldsPut(0, i.a2, i.a1, f3, 0, 0x63);
  }

  lemma UWord(i: Instr, opcode: nat) returns (w: Word)
    requires InFile(i) && opcode < 128
    ensures IsU(w, i, opcode)
  {
    w := FieldsPut(0, 0, 0, 0, i.a1, opcode);
  }

  predicate InFile(i: Instr) { 0 <= i.a1 < 32 && 0 <= i.a2 < 32 && 0 <= i.a3 < 32 }

  lemma ComputeWord(i: Instr) returns (w: Word)
    requires InFile(i) && (IsRegister(i.op) || IsImmediate(i.op))
    ensures Encodes(w, i)
  {
    hide IsR, IsI;
    match i.op {
      case ADD => w := RWord(i, 0, 0);
      case SUB => w := RWord(i, 0, 32);
      case SLL => w := RWord(i, 1, 0);
      case SLT => w := RWord(i, 2, 0);
      case SLTU => w := RWord(i, 3, 0);
      case XOR => w := RWord(i, 4, 0);
      case SRL => w := RWord(i, 5, 0);
      case SRA => w := RWord(i, 5, 32);
      case OR => w := RWord(i, 6, 0);
      case AND => w := RWord(i, 7, 0);
      case ADDI => w := IWord(i, 0x13, 0, 0);
      case SLTI => w := IWord(i, 0x13, 2, 0);
      case SLTIU => w := IWord(i, 0x13, 3, 0);
      case XORI => w := IWord(i, 0x13, 4, 0);
      case ORI => w := IWord(i, 0x13, 6, 0);
      case ANDI => w := IWord(i, 0x13, 7, 0);
      case SLLI => w := IWord(i, 0x13, 1, 0);
      case SRLI => w := IWord(i, 0x13, 5, 0);
      case SRAI => w := IWord(i, 0x13, 5, 32);
    }
  }

  lemma OtherWord(i: Instr) returns (w: Word)
    requires InFile(i) && !IsRegister(i.op) && !IsImmediate(i.op)
    ensures Encodes(w, i)
  {
    hide IsI, IsS, IsB;
    match i.op {
      case LB => w := IWord(i, 0x03, 0, 0);
      case LH => w := IWord(i, 0x03, 1, 0);
      case LW => w := IWord(i, 0x03, 2, 0);
      case LBU => w := IWord(i, 0x03, 4, 0);
      case LHU => w := IWord(i, 0x03, 5, 0);
      case SB => w := SWord(i, 0);
      case SH => w := SWord(i, 1);
      case SW => w := SWord(i, 2);
      case BEQ => w := BWord(i, 0);
      case BNE => w := BWord(i, 1);
      case BLT => w := BWord(i, 4);
      case BGE => w := BWord(i, 5);
      case BLTU => w := BWord(i, 6);
      case BGEU => w := BWord(i, 7);
      case JALR => w := IWord(i, 0x67, 0, 0);
      case JAL => w := UWord(i, 0x6F);
      case LUI => w := UWord(i, 0x37);
      case AUIPC => w := UWord(i, 0x17);
      case HCF => w := UWord(i, 0x0B);
      case UNIMPL => w := UWord(i, 0x73);
    }
  }

  /** Every mnemonic, with any registers, has a machine word. */
  lemma Encodable(op: Mnemonic, a1: int, a2: int, a3: int)
    requires 0 <= a1 < 32 && 0 <= a2 < 32 && 0 <= a3 < 32
    ensures exists w: Word :: Encodes(w, Instr(op, a1, a2, a3))
  {
    hide Encodes;
    var i := Instr(op, a1, a2, a3);
    if IsRegister(op) || IsImmediate(op) { var w := ComputeWord(i); } else { var w := OtherWord(i); }
  }

  /** The words of the mnemonics are the instructions of the manual that the core claims, no more and no less. */
  lemma LegalExactly(w: Word)
    ensures Isa.Legal(w) <==> exists i: Instr :: !i.op.UNIMPL? && Encodes(w, i)
  {
    forall i: Instr | !i.op.UNIMPL? && Encodes(w, i)
      ensures Isa.Legal(w)
    {
      EncodedLegal(w, i);
    }
    if Isa.Legal(w) { var i := Parsed(w); }
  }

  lemma EncodedLegal(w: Word, i: Instr)
    requires Encodes(w, i) && !i.op.UNIMPL?
    ensures Isa.Legal(w)
  {}

  lemma Parsed(w: Word) returns (i: Instr)
    requires Isa.Legal(w)
    ensures !i.op.UNIMPL? && Encodes(w, i)
  {
    if w % 128 == 0x33 { i := ParsedR(w); }
    else if w % 128 == 0x13 { i := ParsedI(w); }
    else if w % 128 == 0x03 || w % 128 == 0x23 { i := ParsedAccess(w); }
    else { i := ParsedOther(w); }
  }

  lemma ParsedR(w: Word) returns (i: Instr)
    requires Isa.Legal(w) && w % 128 == 0x33
    ensures !i.op.UNIMPL? && Encodes(w, i)
  {
    var alt := w / 33554432 == 32;
    var op := match w / 4096 % 8
      case 0 => if alt then SUB else ADD
      case 1 => SLL
      case 2 => SLT
      case 3 => SLTU
      case 4 => XOR
      case 5 => if alt then SRA else SRL
      case 6 => OR
      case _ => AND;
    i := Instr(op, w / 128 % 32, w / 32768 % 32, w / 1048576 % 32);
  }

  lemma ParsedI(w: Word) returns (i: Instr)
    requires Isa.Legal(w) && w % 128 == 0x13
    ensures !i.op.UNIMPL? && Encodes(w, i)
  {
    var op := match w / 4096 % 8
      case 0 => ADDI
      case 1 => SLLI
      case 2 => SLTI
      case 3 => SLTIU
      case 4 => XORI
      case 5 => if w / 33554432 == 32 then SRAI else SRLI
      case 6 => ORI
      case _ => ANDI;
    i := Instr(op, w / 128 % 32, w / 32768 % 32, 0);
  }

  lemma ParsedAccess(w: Word) returns (i: Instr)
    requires Isa.Legal(w) && (w % 128 == 0x03 || w % 128 == 0x23)
    ensures !i.op.UNIMPL? && Encodes(w, i)
  {
    var f3, rs1 := w / 4096 % 8, w / 32768 % 32;
    if w % 128 == 0x03 {
      i := Instr(match f3 case 0 => LB case 1 => LH case 2 => LW case 4 => LBU case _ => LHU, w / 128 % 32, rs1, 0);
    } else {
      i := Instr(match f3 case 0 => SB case 1 => SH case _ => SW, w / 1048576 % 32, rs1, 0);
    }
  }

  lemma ParsedOther(w: Word) returns (i: Instr)
    requires Isa.Legal(w) && w % 128 !in {0x33, 0x13, 0x03, 0x23}
    ensures !i.op.UNIMPL? && Encodes(w, i)
  {
    var rd, rs1 := w / 128 % 32, w / 32768 % 32;
    match w % 128 {
      case 0x63 =>
        var op := match w / 4096 % 8
          case 0 => BEQ case 1 => BNE case 4 => BLT case 5 => BGE case 6 => BLTU case _ => BGEU;
        i := Instr(op, rs1, w / 1048576 % 32, 0);
      case 0x67 => i := Instr(JALR, rd, rs1, 0);
      case 0x6F => i := Instr(JAL, rd, 0, 0);
      case 0x37 => i := Instr(LUI, rd, 0, 0);
      case 0x17 => i := Instr(AUIPC, rd, 0, 0);
      case _ => i := Instr(HCF, 0, 0, 0);
    }
  }

  /** The classes of the parser against the kinds of the controller. */
  predicate SameClass(w: Word, i: Instr) {
    match KindOf(w)
    case Op => IsRegister(i.op) && i.a1 == Rd(w) && i.a2 == Rs1(w) && i.a3 == Rs2(w)
    case OpImm => IsImmediate(i.op) && i.a1 == Rd(w) && i.a2 == Rs1(w)
    case Load => IsLoadOp(i.op) && i.a1 == Rd(w) && i.a2 == Rs1(w)
    case Store => IsStoreOp(i.op) && i.a1 == Rs2(w) && i.a2 == Rs1(w)
    case Branch => IsBranchOp(i.op) && i.a1 == Rs1(w) && i.a2 == Rs2(w)
    case Jalr => i.op.JALR? && i.a1 == Rd(w) && i.a2 == Rs1(w)
    case Jal => i.op.JAL? && i.a1 == Rd(w)
    case Lui => i.op.LUI? && i.a1 == Rd(w)
    case Auipc => i.op.AUIPC? && i.a1 == Rd(w)
    case Hcf => i.op.HCF?
    case Other => i.op.UNIMPL?
  }

  lemma EncodedClass(w: Word, i: Instr)
    requires Encodes(w, i)
    ensures SameClass(w, i)
  {}

  /** A missing packet is a bubble. */
  predicate Carries(w: Word, p: Option<Instr>) {
    if p.Some? then Encodes(w, p.value) else w == 0
  }

  lemma DestinationsAgree(w: Word, p: Option<Instr>)
    requires Carries(w, p)
    ensures DestOf(p) == if WritesRd(w) then Rd(w) else 0
  {
    hide Encodes, Rd, Rs1, Rs2;
    if p.Some? {
      EncodedClass(w, p.value);
      hide KindOf;
    }
  }

  lemma SourcesAgree(d: Word, i: Instr, rd: int)
    requires Encodes(d, i)
    ensures DependsOn(rd, i) <==> rd != 0 && ((UsesRs1(d) && Rs1(d) == rd) || (UsesRs2(d) && Rs2(d) == rd))
  {
    EncodedClass(d, i);
    DependsByKind(rd, i);
    hide Encodes, KindOf, Rd, Rs1, Rs2, DependsOn;
  }

  /** Which operands a dependence can come from. */
  lemma DependsByKind(rd: int, i: Instr)
    ensures IsRegister(i.op) ==> (DependsOn(rd, i) <==> rd != 0 && (i.a2 == rd || i.a3 == rd))
    ensures IsImmediate(i.op) || IsLoadOp(i.op) || i.op.JALR? ==> (DependsOn(rd, i) <==> rd != 0 && i.a2 == rd)
    ensures IsStoreOp(i.op) || IsBranchOp(i.op) ==> (DependsOn(rd, i) <==> rd != 0 && (i.a1 == rd || i.a2 == rd))
    ensures i.op.JAL? || i.op.LUI? || i.op.AUIPC? || i.op.HCF? || i.op.UNIMPL? ==> !DependsOn(rd, i)
  {}

  lemma DependsExactly(d: Word, i: Instr, w: Word, p: Option<Instr>)
    requires Encodes(d, i) && Carries(w, p)
    ensures DependsOn(DestOf(p), i) <==> Overlaps(d, w)
  {
    DestinationsAgree(w, p);
    SourcesAgree(d, i, DestOf(p));
    hide KindOf, Rd, Rs1, Rs2, DependsOn, Encodes, DestOf, WritesRd, UsesRs1, UsesRs2;
  }

  /** For any contents of the four stages the two predicates stall together. */
  lemma HazardsAgree(d: Word, e: Word, m: Word, w: Word,
                     id: Option<Instr>, exe: Option<Instr>, mem: Option<Instr>, wb: Option<Instr>)
    requires Carries(d, id) && Carries(e, exe) && Carries(m, mem) && Carries(w, wb)
    ensures var stall := Hazard(d, e, m, w);
            Check(id, exe, mem, wb) == (stall, stall, stall)
  {
    hide Encodes, DependsOn, DestOf, Overlaps;
    if id.Some? {
      DependsExactly(d, id.value, e, exe);
      DependsExactly(d, id.value, m, mem);
      DependsExactly(d, id.value, w, wb);
    } else {
      BubbleNeverWaits(e);
      BubbleNeverWaits(m);
      BubbleNeverWaits(w);
    }
  }

  lemma BubbleNeverWaits(x: Word)
    ensures !Overlaps(0, x)
  {}
}
