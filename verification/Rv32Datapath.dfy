/** The combinational half of the five-stage core: instruction fields, the controller's
    lookup tables, the immediate generator, the ALU and the branch comparator. Hardware words are
    bounded integers; every place where the hardware drops a carry is written out. */
module Rv32Datapath {
  import opened Words

  const ADDRS := 0x8000
  const SIGN := 0x8000_0000

  type Addr = x: int | 0 <= x < ADDRS
  type Regs = r: seq<Word> | |r| == 32 witness seq(32, _ => 0)
  type Bytes = m: seq<Byte> | |m| == ADDRS witness seq(ADDRS, _ => 0)

  /** Instruction memory as the core sees it: one word per fetch address, always valid. */
  type Program = Addr -> Word

  /** The instruction classes the controller's tables tell apart. */
  datatype Kind = Load | Store | Branch | Jalr | Jal | OpImm | Op | Auipc | Lui | Hcf | Other

  // Access lengths, funct3 of a load or store
  const BYTE: Word := 0
  const HALF: Word := 1
  const WORD: Word := 2
  const UBYTE: Word := 4
  const UHALF: Word := 5

  // ---- Instruction fields ----

  function KindOf(i: Word): Kind {
    match i % 0x80
    case 0x03 => Load
    case 0x23 => Store
    case 0x63 => Branch
    case 0x67 => Jalr
    case 0x6F => Jal
    case 0x13 => OpImm
    case 0x33 => Op
    case 0x17 => Auipc
    case 0x37 => Lui
    case 0x0B => Hcf
    case _ => Other
  }

  function Rd(i: Word): (r: nat)
    ensures r < 32
  {
    i / 0x80 % 32
  }

  function Funct3(i: Word): (f: nat)
    ensures f < 8
  {
    i / 0x1000 % 8
  }

  function Rs1(i: Word): (r: nat)
    ensures r < 32
  {
    i / 0x8000 % 32
  }

  function Rs2(i: Word): (r: nat)
    ensures r < 32
  {
    i / 0x10_0000 % 32
  }

  function Funct7(i: Word): (f: nat)
    ensures f < 128
  {
    i / 0x200_0000
  }

  // ---- Controller tables ----

  predicate UsesRs1(i: Word) {
    var k := KindOf(i);
    k.Load? || k.Store? || k.Branch? || k.Jalr? || k.OpImm? || k.Op?
  }

  predicate UsesRs2(i: Word) {
    var k := KindOf(i);
    k.Store? || k.Branch? || k.Op?
  }

  predicate WritesRd(i: Word) {
    var k := KindOf(i);
    k.Load? || k.Jalr? || k.Jal? || k.OpImm? || k.Op? || k.Auipc? || k.Lui?
  }

  predicate IsLoad(i: Word) { KindOf(i).Load? }

  predicate IsStore(i: Word) { KindOf(i).Store? }

  predicate IsMem(i: Word) { IsLoad(i) || IsStore(i) }

  predicate IsHcf(i: Word) { KindOf(i).Hcf? }

  /** One of the controller's read-after-write comparisons: `d` sits in decode and
      `x` in a later stage. */
  predicate Overlaps(d: Word, x: Word) {
    && WritesRd(x)
    && Rd(x) != 0
    && ((UsesRs1(d) && Rs1(d) == Rd(x)) || (UsesRs2(d) && Rs2(d) == Rd(x)))
  }

  // ---- Immediate generator ----

  /** Two's complement widening to a word of a value whose sign bit weighs `sign`. */
  function SignExtend(v: nat, sign: nat): Word
    requires v < 2 * sign <= WORDS
  {
    if v < sign then v else v + (WORDS - 2 * sign)
  }

  function Bit31(i: Word): nat { i / 0x8000_0000 }

  function ImmI(i: Word): Word { SignExtend(i / 0x10_0000, 0x800) }

  function ImmS(i: Word): Word {
    SignExtend(Bit31(i) * 0x800 + i / 0x200_0000 % 0x40 * 0x20 + i / 0x100 % 0x10 * 2 + i / 0x80 % 2, 0x800)
  }

  function ImmB(i: Word): Word {
    SignExtend(Bit31(i) * 0x1000 + i / 0x80 % 2 * 0x800 + i / 0x200_0000 % 0x40 * 0x20 + i / 0x100 % 0x10 * 2, 0x1000)
  }

  function ImmU(i: Word): Word { i / 0x1000 * 0x1000 }

  function ImmJ(i: Word): Word {
    SignExtend(Bit31(i) * 0x10_0000 + i / 0x1000 % 0x100 * 0x1000 + i / 0x10_0000 % 2 * 0x800
      + i / 0x20_0000 % 0x400 * 2,
               0x10_0000)
  }

  function Imm(i: Word): Word {
    match KindOf(i)
    case Load | Jalr | OpImm => ImmI(i)
    case Store => ImmS(i)
    case Branch => ImmB(i)
    case Jal => ImmJ(i)
    case Auipc | Lui => ImmU(i)
    case _ => 0
  }

  // ---- ALU and branch comparator ----

  function Wrap(v: int): Word { v % WORDS }

  /** `n` single-bit shifts: left dropping the carry, right filling with zero or with the sign. */
  function ShiftLeft(a: Word, n: nat): Word
    decreases n
  {
    if n == 0 then a else ShiftLeft(Wrap(2 * a), n - 1)
  }

  function ShiftRight(a: Word, n: nat): Word
    decreases n
  {
    if n == 0 then a else ShiftRight(a / 2, n - 1)
  }

  function ShiftRightSigned(a: Word, n: nat): Word
    decreases n
  {
    if n == 0 then a else ShiftRightSigned(a / 2 + (if a < SIGN then 0 else SIGN), n - 1)
  }

  /** The low `n` bits of `a` and `b` combined position by position; no bit is set above. */
  function Bitwise(gate: (bool, bool) -> bool, a: nat, b: nat, n: nat): nat {
    if n == 0 then 0
    else (if gate(a % 2 == 1, b % 2 == 1) then 1 else 0) + 2 * Bitwise(gate, a / 2, b / 2, n - 1)
  }

  function Xor(a: Word, b: Word): Word { Wrap(Bitwise((x, y) => x != y, a, b, 32)) }
  function Or(a: Word, b: Word): Word { Wrap(Bitwise((x, y) => x || y, a, b, 32)) }
  function And(a: Word, b: Word): Word { Wrap(Bitwise((x, y) => x && y, a, b, 32)) }

  predicate SignedLess(a: Word, b: Word) { Signed(a) < Signed(b) }

  /** The 15-bit ALU select: funct7, five ones, funct3. */
  function AluSel(i: Word): nat {
    match KindOf(i)
    case Op => Funct7(i) * 0x100 + 0xF8 + Funct3(i)
    case OpImm => (if Funct3(i) == 5 then Funct7(i) * 0x100 else 0) + 0xF8 + Funct3(i)
    case _ => 0xF8
  }

  function Alu(sel: nat, a: Word, b: Word): Word {
    match sel
    case 0x00F8 => Wrap(a + b)                        // ADD
    case 0x00F9 => ShiftLeft(a, b % 32)               // SLL
    case 0x00FA => if SignedLess(a, b) then 1 else 0  // SLT
    case 0x00FB => if a < b then 1 else 0             // SLTU
    case 0x00FC => Xor(a, b)                          // XOR
    case 0x00FD => ShiftRight(a, b % 32)              // SRL
    case 0x00FE => Or(a, b)                           // OR
    case 0x00FF => And(a, b)                          // AND
    case 0x20F8 => Wrap(a - b)                        // SUB
    case 0x20FD => ShiftRightSigned(a, b % 32)        // SRA
    case _ => 0
  }

  /** What the execute stage's register holds. */
  datatype ExeReg = ExeReg(inst: Word, pc: Addr, rs1: Word, rs2: Word, imm: Word)

  function AluSrc1(x: ExeReg): Word {
    match KindOf(x.inst)
    case Branch | Jal | Auipc => x.pc
    case Lui | Hcf => 0
    case _ => x.rs1
  }

  function AluSrc2(x: ExeReg): Word {
    match KindOf(x.inst)
    case Op | Hcf | Other => x.rs2
    case _ => x.imm
  }

  function AluOut(x: ExeReg): Word {
    Alu(AluSel(x.inst), AluSrc1(x), AluSrc2(x))
  }

  function LowAddr(w: int): Addr { w % ADDRS }

  function Target(x: ExeReg): Addr { LowAddr(AluOut(x)) }

  /** The branch comparator's answer; inst(13) selects the unsigned compare. */
  predicate BranchTaken(i: Word, a: Word, b: Word) {
    var less := if i / 0x2000 % 2 == 1 then a < b else SignedLess(a, b);
    match Funct3(i)
    case 0 => a == b
    case 1 => a != b
    case 4 | 6 => less
    case 5 | 7 => !less
    case _ => false
  }

  /** The jump or branch in the execute stage is taken. */
  predicate Taken(x: ExeReg) {
    match KindOf(x.inst)
    case Branch => BranchTaken(x.inst, x.rs1, x.rs2)
    case Jalr | Jal => true
    case _ => false
  }

  // ---- Byte-addressed data memory accesses ----

  function AlignedTo(length: Word, a: Addr): Addr {
    if length == BYTE then a
    else if length == HALF then a - a % 2
    else a - a % 4
  }

  /** Sign- or zero-extended value returned for a load; unsigned lengths use the
      word-aligned default address. */
  function LoadValue(length: Word, a: Addr, m: Bytes): Word {
    var p := AlignedTo(length, a);
    var b0: int := m[p];
    if length == BYTE then SignExtend(b0, 0x80)
    else if length == UBYTE then b0
    else if length == HALF || length == WORD || length == UHALF then
      var b1: int := m[p + 1];
      if length == HALF then SignExtend(b0 + 0x100 * b1, 0x8000)
      else if length == UHALF then b0 + 0x100 * b1
      else
        var b2: int, b3: int := m[p + 2], m[p + 3];
        b0 + 0x100 * b1 + 0x1_0000 * b2 + 0x100_0000 * b3
    else 0
  }

  function PutByte(m: Bytes, p: Addr, w: Word): Bytes {
    m[p := w % 0x100]
  }

  function PutHalf(m: Bytes, p: Addr, w: Word): Bytes
    requires p + 1 < ADDRS
  {
    PutByte(PutByte(m, p, w), p + 1, w / 0x100)
  }

  function PutWord(m: Bytes, p: Addr, w: Word): Bytes
    requires p + 3 < ADDRS
  {
    PutHalf(PutHalf(m, p, w), p + 2, w / 0x1_0000)
  }

  /** A store; a length other than byte, half or word writes a zero word. */
  function StoreBytes(length: Word, a: Addr, w: Word, m: Bytes): Bytes {
    var p := AlignedTo(length, a);
    if length == BYTE then PutByte(m, p, w)
    else if length == HALF then PutHalf(m, p, w)
    else if length == WORD then PutWord(m, p, w)
    else PutWord(m, p, 0)
  }

  /** Register file write port; x0 is forced back to zero on every edge. */
  function WriteReg(regs: Regs, inst: Word, value: Word): Regs {
    (if WritesRd(inst) then regs[Rd(inst) := value] else regs)[0 := 0]
  }
}
