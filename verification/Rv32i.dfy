/** The RV32I base instructions as the RISC-V Unprivileged ISA manual defines them (sections 2.2
    to 2.6), written independently of the core's tables: immediates as signed numbers assembled
    the way the manual's format tables list them, arithmetic on integers, byte-granular
    little-endian memory. */
module Rv32i {
  import opened Words
  import opened Rv32Datapath

  datatype Hart = Hart(pc: int, regs: Regs, bytes: Bytes)

  /** The `n`-bit field whose values lie below `size`, read as two's complement. */
  function TwosComplement(v: int, size: int): int {
    if v < size / 2 then v else v - size
  }

  // Section 2.2: the major opcode, rd, funct3, rs1, rs2, funct7
  function Major(i: Word): int { i % 128 }
  function FieldRd(i: Word): nat { i / 128 % 32 }
  function FieldF3(i: Word): nat { i / 4096 % 8 }
  function FieldRs1(i: Word): nat { i / 32768 % 32 }
  function FieldRs2(i: Word): nat { i / 1048576 % 32 }
  function FieldF7(i: Word): nat { i / 33554432 % 128 }

  // Section 2.3: immediates
  function IImm(i: Word): int { TwosComplement(i / 1048576, 4096) }
  function SImm(i: Word): int { TwosComplement(FieldF7(i) * 32 + FieldRd(i), 4096) }
  function BImm(i: Word): int {
    // imm[12|10:5] in funct7, imm[4:1|11] in rd
    var hi, lo := FieldF7(i), FieldRd(i);
    TwosComplement(hi / 64 * 4096 + lo % 2 * 2048 + hi % 64 * 32 + lo / 2 * 2, 8192)
  }
  function UImm(i: Word): int { i - i % 4096 }
  function JImm(i: Word): int {
    // imm[20|10:1|11|19:12] in inst[31:12]
    var f := i / 4096;
    TwosComplement(f / 524288 * 1048576 + f % 256 * 4096 + f / 256 % 2 * 2048 + f / 512 % 1024 * 2, 2097152)
  }

  /** The base instructions the core claims; HCF is its own halt in the custom-0 space. */
  predicate Legal(i: Word) {
    var f3, f7 := FieldF3(i), FieldF7(i);
    match Major(i)
    case 0x37 | 0x17 | 0x6F | 0x0B => true                          // LUI AUIPC JAL, HCF
    case 0x67 => f3 == 0                                            // JALR
    case 0x63 => f3 != 2 && f3 != 3                                 // branches
    case 0x03 => f3 == 0 || f3 == 1 || f3 == 2 || f3 == 4 || f3 == 5 // loads
    case 0x23 => f3 <= 2                                            // stores
    case 0x13 => (f3 == 1 ==> f7 == 0) && (f3 == 5 ==> f7 == 0 || f7 == 32)
    case 0x33 => f7 == 0 || (f7 == 32 && (f3 == 0 || f3 == 5))
    case _ => false
  }

  /** Sections 2.4.1 and 2.4.2: the integer operation selected by funct3, with `alt` set for the
      subtract and arithmetic-shift variants. */
  function Compute(f3: nat, alt: bool, a: Word, b: Word): Word
    requires f3 < 8
  {
    match f3
    case 0 => (if alt then a - b else a + b) % WORDS
    case 1 => a * Pow2(b % 32) % WORDS
    case 2 => if TwosComplement(a, WORDS) < TwosComplement(b, WORDS) then 1 else 0
    case 3 => if a < b then 1 else 0
    case 4 => Xor(a, b)
    case 5 => (if alt then TwosComplement(a, WORDS) / Pow2(b % 32) else a / Pow2(b % 32)) % WORDS
    case 6 => Or(a, b)
    case 7 => And(a, b)
  }

  /** Section 2.5.2. */
  predicate Branches(f3: nat, a: Word, b: Word) {
    var sa, sb := TwosComplement(a, WORDS), TwosComplement(b, WORDS);
    match f3
    case 0 => a == b
    case 1 => a != b
    case 4 => sa < sb
    case 5 => sa >= sb
    case 6 => a < b
    case 7 => a >= b
    case _ => false
  }

  /** Section 2.6: bytes a load or store of this width touches. */
  function Width(f3: nat): nat {
    if f3 % 4 == 0 then 1 else if f3 % 4 == 1 then 2 else 4
  }

  function LittleEndian(m: Bytes, a: nat, width: nat): nat
    requires a + width <= ADDRS
    decreases width
  {
    if width == 0 then 0 else m[a] + 0x100 * LittleEndian(m, a + 1, width - 1)
  }

  /** The loaded value: zero-extended when funct3 has bit 2 set, sign-extended otherwise. */
  function Loaded(f3: nat, m: Bytes, a: nat): Word
    requires a + Width(f3) <= ADDRS
  {
    var v := LittleEndian(m, a, Width(f3));
    (if f3 >= 4 then v else TwosComplement(v, Pow2(8 * Width(f3)))) % WORDS
  }

  function Stored(m: Bytes, a: nat, width: nat, v: nat): Bytes
    requires a + width <= ADDRS
    decreases width
  {
    if width == 0 then m else Stored(m[a := v % 0x100], a + 1, width - 1, v / 0x100)
  }

  function SetReg(regs: Regs, r: nat, v: Word): Regs
    requires r < 32
  {
    if r == 0 then regs else regs[r := v]
  }

  /** Address formed by the load, store or jump. */
  function Address(i: Word, h: Hart): int {
    (h.regs[FieldRs1(i)] + (if Major(i) == 0x23 then SImm(i) else IImm(i))) % WORDS
  }

  /** Where the instruction sends the pc. */
  function NextPc(i: Word, h: Hart): int {
    match Major(i)
    case 0x6F => (h.pc + JImm(i)) % WORDS
    case 0x67 => Address(i, h) - Address(i, h) % 2
    case 0x63 =>
      if Branches(FieldF3(i), h.regs[FieldRs1(i)], h.regs[FieldRs2(i)]) then (h.pc + BImm(i)) % WORDS else h.pc + 4
    case _ => h.pc + 4
  }

  /** The access stays inside the implemented data memory. */
  predicate InMemory(i: Word, h: Hart) {
    Major(i) == 0x03 || Major(i) == 0x23 ==> Address(i, h) + Width(FieldF3(i)) <= ADDRS
  }

  /** One instruction. */
  function Execute(i: Word, h: Hart): Hart
    requires Legal(i) && InMemory(i, h)
  {
    var rd, f3 := FieldRd(i), FieldF3(i);
    var a, b := h.regs[FieldRs1(i)], h.regs[FieldRs2(i)];
    var regs := match Major(i)
      case 0x37 => SetReg(h.regs, rd, UImm(i))
      case 0x17 => SetReg(h.regs, rd, (h.pc + UImm(i)) % WORDS)
      case 0x6F => SetReg(h.regs, rd, (h.pc + 4) % WORDS)
      case 0x67 => SetReg(h.regs, rd, (h.pc + 4) % WORDS)
      case 0x03 => SetReg(h.regs, rd, Loaded(f3, h.bytes, Address(i, h)))
      case 0x13 => SetReg(h.regs, rd, Compute(f3, f3 == 5 && FieldF7(i) == 32, a, IImm(i) % WORDS))
      case 0x33 => SetReg(h.regs, rd, Compute(f3, FieldF7(i) == 32, a, b))
      case _ => h.regs;
    var bytes := if Major(i) == 0x23 then Stored(h.bytes, Address(i, h), Width(f3), b) else h.bytes;
    Hart(NextPc(i, h), regs, bytes)
  }
}
