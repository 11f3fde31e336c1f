/** Where the core's datapath computes what the ISA manual says, and exactly where it does not. */
module Conformance {
  import opened Words
  import opened Rv32Datapath
  import opened Pipeline
  import opened AsBuilt
  import Isa = Rv32i

  // ---- Immediates: what the generator concatenates is the manual's signed field ----

  lemma SignExtends(v: nat, sign: nat)
    requires v < 2 * sign < WORDS
    ensures SignExtend(v, sign) == Isa.TwosComplement(v, 2 * sign) % WORDS
  {}

  lemma ImmIAgrees(i: Word)
    ensures ImmI(i) == Isa.IImm(i) % WORDS
  {
    SignExtends(i / 0x10_0000, 0x800);
  }

  lemma UpperFields(i: Word)
    ensures Bit31(i) == Isa.FieldF7(i) / 64 && i / 0x200_0000 % 0x40 == Isa.FieldF7(i) % 64
    ensures Isa.FieldF7(i) < 128
  {}

  lemma LowerFields(i: Word)
    ensures i / 0x100 % 0x10 == Isa.FieldRd(i) / 2 && i / 0x80 % 2 == Isa.FieldRd(i) % 2
    ensures Isa.FieldRd(i) < 32
  {
    var q, r := i / 0x1000, i / 0x80 % 32;
    assert i / 0x80 == 32 * q + r;
    HalfOfField(q, r);
  }

  lemma HalfOfField(q: int, r: int)
    requires 0 <= r < 32
    ensures (32 * q + r) / 2 % 16 == r / 2 && (32 * q + r) % 2 == r % 2
  {
    assert (32 * q + r) / 2 == 16 * q + r / 2;
  }

  lemma ImmSAgrees(i: Word)
    ensures ImmS(i) == Isa.SImm(i) % WORDS
  {
    hide Isa.FieldF7, Isa.FieldRd, Bit31, Isa.TwosComplement, SignExtend;
    UpperFields(i);
    LowerFields(i);
    SignExtends(Isa.FieldF7(i) * 32 + Isa.FieldRd(i), 0x800);
  }

  lemma ImmBAgrees(i: Word)
    ensures ImmB(i) == Isa.BImm(i) % WORDS
  {
    hide Isa.FieldF7, Isa.FieldRd, Bit31, Isa.TwosComplement, SignExtend;
    UpperFields(i);
    LowerFields(i);
    var hi, lo := Isa.FieldF7(i), Isa.FieldRd(i);
    SignExtends(hi / 64 * 4096 + lo % 2 * 2048 + hi % 64 * 32 + lo / 2 * 2, 0x1000);
  }

  lemma ImmJAgrees(i: Word)
    ensures ImmJ(i) == Isa.JImm(i) % WORDS
  {
    var f := i / 4096;
    assert Bit31(i) == f / 524288;
    assert i / 0x1000 % 0x100 == f % 256;
    assert i / 0x10_0000 % 2 == f / 256 % 2;
    assert i / 0x20_0000 % 0x400 == f / 512 % 1024;
    SignExtends(f / 524288 * 1048576 + f % 256 * 4096 + f / 256 % 2 * 2048 + f / 512 % 1024 * 2, 0x10_0000);
  }

  // ---- Arithmetic ----

  lemma {:induction false} ShiftLeftAgrees(a: Word, n: nat)
    ensures ShiftLeft(a, n) == a * Pow2(n) % WORDS
    decreases n
  {
    if n > 0 {
      ShiftLeftAgrees(Wrap(2 * a), n - 1);
      DoubledDrops(a, Pow2(n - 1));
    }
  }

  /** Doubling first and dropping the carry changes no multiple. */
  lemma DoubledDrops(a: Word, p: int)
    ensures Wrap(2 * a) * p % WORDS == a * (2 * p) % WORDS
  {
    var carry := 2 * a / WORDS;
    DoubleTimes(a, p);
    Distribute(2 * a, carry * WORDS, p);
    CarryTimes(carry, p);
    DropMultiple(carry * p, Wrap(2 * a) * p);
  }

  lemma CarryTimes(k: int, p: int)
    ensures p * (k * WORDS) == (k * p) * WORDS
  {}

  lemma DoubleTimes(a: int, p: int)
    ensures a * (2 * p) == (2 * a) * p
  {}

  lemma DropMultiple(k: int, r: int)
    ensures (k * WORDS + r) % WORDS == r % WORDS
  {}

  lemma {:induction false} ShiftRightAgrees(a: Word, n: nat)
    ensures ShiftRight(a, n) == a / Pow2(n) % WORDS
    decreases n
  {
    if n > 0 {
      ShiftRightAgrees(a / 2, n - 1);
      HalveThenDivide(a, Pow2(n - 1));
    }
  }

  lemma {:induction false} ShiftRightSignedAgrees(a: Word, n: nat)
    ensures ShiftRightSigned(a, n) == Isa.TwosComplement(a, WORDS) / Pow2(n) % WORDS
    decreases n
  {
    var s := Isa.TwosComplement(a, WORDS);
    if n > 0 {
      var b: Word := a / 2 + (if a < SIGN then 0 else SIGN);
      assert Isa.TwosComplement(b, WORDS) == s / 2;
      ShiftRightSignedAgrees(b, n - 1);
      HalveThenDivide(s, Pow2(n - 1));
    }
  }

  /** The ALU, driven by the controller's select, computes the operation funct3 names. */
  lemma ComputeAgrees(f3: nat, alt: bool, a: Word, b: Word)
    requires f3 < 8 && (alt ==> f3 == 0 || f3 == 5)
    ensures Alu((if alt then 0x2000 else 0) + 0xF8 + f3, a, b) == Isa.Compute(f3, alt, a, b)
  {
    hide Pow2, Xor, Or, And;
    ShiftLeftAgrees(a, b % 32);
    ShiftRightAgrees(a, b % 32);
    ShiftRightSignedAgrees(a, b % 32);
  }

  lemma {:induction false} BitwiseBounded(gate: (bool, bool) -> bool, a: nat, b: nat, n: nat)
    ensures Bitwise(gate, a, b, n) < Pow2(n)
  {
    if n > 0 { BitwiseBounded(gate, a / 2, b / 2, n - 1); }
  }

  lemma {:induction false} BitwiseAt(gate: (bool, bool) -> bool, a: nat, b: nat, n: nat, k: nat)
    requires k < n
    ensures Bitwise(gate, a, b, n) / Pow2(k) % 2 == 1 <==> gate(a / Pow2(k) % 2 == 1, b / Pow2(k) % 2 == 1)
  {
    if k > 0 {
      BitwiseAt(gate, a / 2, b / 2, n - 1, k - 1);
      HalveThenDivide(a, Pow2(k - 1));
      HalveThenDivide(b, Pow2(k - 1));
      HalveThenDivide(Bitwise(gate, a, b, n), Pow2(k - 1));
    }
  }

  /** Bit `k` of an exclusive or is set when the two bits differ. */
  lemma XorBits(a: Word, b: Word, k: nat)
    requires k < 32
    ensures Xor(a, b) / Pow2(k) % 2 == 1 <==> a / Pow2(k) % 2 != b / Pow2(k) % 2
  {
    BitwiseBit((x, y) => x != y, a, b, k);
  }

  /** Bit `k` of an or is set when one of the two bits is. */
  lemma OrBits(a: Word, b: Word, k: nat)
    requires k < 32
    ensures Or(a, b) / Pow2(k) % 2 == 1 <==> a / Pow2(k) % 2 == 1 || b / Pow2(k) % 2 == 1
  {
    BitwiseBit((x, y) => x || y, a, b, k);
  }

  /** Bit `k` of an and is set when both bits are. */
  lemma AndBits(a: Word, b: Word, k: nat)
    requires k < 32
    ensures And(a, b) / Pow2(k) % 2 == 1 <==> a / Pow2(k) % 2 == 1 && b / Pow2(k) % 2 == 1
  {
    BitwiseBit((x, y) => x && y, a, b, k);
  }

  lemma BitwiseBit(gate: (bool, bool) -> bool, a: Word, b: Word, k: nat)
    requires k < 32
    ensures Wrap(Bitwise(gate, a, b, 32)) / Pow2(k) % 2 == 1 <==> gate(a / Pow2(k) % 2 == 1, b / Pow2(k) % 2 == 1)
  {
    hide Bitwise, Pow2, Wrap;
    BitwiseFits(gate, a, b);
    BitwiseAt(gate, a, b, 32, k);
  }

  lemma BitwiseFits(gate: (bool, bool) -> bool, a: Word, b: Word)
    ensures Wrap(Bitwise(gate, a, b, 32)) == Bitwise(gate, a, b, 32)
  {
    hide Bitwise, Pow2;
    BytePowers();
    BitwiseBounded(gate, a, b, 32);
  }

  lemma MiddleBit(x: nat)
    ensures x / 2 % 2 == x % 8 / 2 % 2
  {
    var q, h := x / 8, x % 8 / 2;
    assert x / 2 == h + 4 * q;
    EvenPart(h, q);
  }

  lemma EvenPart(h: nat, q: nat)
    ensures (h + 4 * q) % 2 == h % 2
  {}

  lemma BranchAgrees(i: Word, a: Word, b: Word)
    ensures BranchTaken(i, a, b) == Isa.Branches(Isa.FieldF3(i), a, b)
  {
    var x := i / 0x1000;
    assert i / 0x2000 == x / 2;
    MiddleBit(x);
  }

  // ---- Memory accesses: right exactly on these alignments ----

  predicate LoadLength(f3: nat) { f3 == 0 || f3 == 1 || f3 == 2 || f3 == 4 || f3 == 5 }

  /** Byte loads anywhere, halfwords on even addresses; words and, because they fall to the default
      of the alignment table, both unsigned lengths on multiples of four only. */
  predicate LoadAligned(f3: nat, a: Addr) {
    f3 == 0 || (f3 == 1 && a % 2 == 0) || (f3 != 1 && a % 4 == 0)
  }

  predicate StoreAligned(f3: nat, a: Addr) {
    f3 == 0 || (f3 == 1 && a % 2 == 0) || (f3 == 2 && a % 4 == 0)
  }

  lemma BytePowers()
    ensures Pow2(8) == 0x100 && Pow2(16) == 0x1_0000 && Pow2(32) == WORDS
  {
    EightMore(0);
    hide Pow2;
    EightMore(8);
    EightMore(16);
    EightMore(24);
  }

  lemma EightMore(n: nat)
    ensures Pow2(n + 8) == 0x100 * Pow2(n)
  {
    FourMore(n);
    FourMore(n + 4);
  }

  lemma FourMore(n: nat)
    ensures Pow2(n + 4) == 0x10 * Pow2(n)
  {
    assert Pow2(n + 2) == 4 * Pow2(n);
  }

  /** The little-endian value, byte by byte. */
  lemma BytesOf(m: Bytes, a: nat)
    requires a < ADDRS
    ensures Isa.LittleEndian(m, a, 1) == m[a]
    ensures a + 2 <= ADDRS ==> Isa.LittleEndian(m, a, 2) == m[a] as int + 0x100 * (m[a + 1] as int)
    ensures a + 4 <= ADDRS ==>
              Isa.LittleEndian(m, a, 4) ==
                m[a] as int + 0x100 * (m[a + 1] as int) + 0x1_0000 * (m[a + 2] as int) + 0x100_0000 * (m[a + 3] as int)
  {
    if a + 4 <= ADDRS {
      assert Isa.LittleEndian(m, a + 2, 2) == m[a + 2] as int + 0x100 * (m[a + 3] as int);
      assert Isa.LittleEndian(m, a + 1, 3) == m[a + 1] as int + 0x100 * Isa.LittleEndian(m, a + 2, 2);
    }
  }

  lemma LoadAgrees(f3: nat, a: Addr, m: Bytes)
    requires LoadLength(f3) && LoadAligned(f3, a) && a + Isa.Width(f3) <= ADDRS
    ensures LoadValue(f3, a, m) == Isa.Loaded(f3, m, a)
  {
    hide Isa.LittleEndian, Pow2, SignExtend, Isa.TwosComplement;
    BytePowers();
    BytesOf(m, a);
    assert AlignedTo(f3, a) == a;
    var v := Isa.LittleEndian(m, a, Isa.Width(f3));
    if f3 == 0 { SignExtends(v, 0x80); }
    if f3 == 1 { SignExtends(v, 0x8000); }
    if f3 == 2 { WholeWord(v); }
  }

  lemma WholeWord(v: Word)
    ensures Isa.TwosComplement(v, WORDS) % WORDS == v
  {}

  /** A load returns the manual's value for every memory if and only if its address is so aligned. */
  lemma LoadExact(f3: nat, a: Addr)
    requires LoadLength(f3) && a + Isa.Width(f3) <= ADDRS
    ensures (forall m: Bytes :: LoadValue(f3, a, m) == Isa.Loaded(f3, m, a)) <==> LoadAligned(f3, a)
  {
    if LoadAligned(f3, a) {
      forall m: Bytes { LoadAgrees(f3, a, m); }
    } else {
      Misloaded(f3, a);
    }
  }

  /** Elsewhere the last byte of the operand is not looked at. */
  lemma Misloaded(f3: nat, a: Addr)
    requires LoadLength(f3) && a + Isa.Width(f3) <= ADDRS && !LoadAligned(f3, a)
    ensures exists m: Bytes :: LoadValue(f3, a, m) != Isa.Loaded(f3, m, a)
  {
    hide Isa.LittleEndian, Pow2;
    var last := a + Isa.Width(f3) - 1;
    var m: Bytes := seq(ADDRS, _ => 0)[last := 1];
    BytePowers();
    BytesOf(m, a);
    assert AlignedTo(f3, a) + Isa.Width(f3) <= last;
    assert LoadValue(f3, a, m) == 0;
    assert Isa.Loaded(f3, m, a) != 0;
  }

  /** The stored bytes, one by one. */
  lemma StoredBytes(m: Bytes, a: nat, w: Word)
    requires a < ADDRS
    ensures Isa.Stored(m, a, 1, w) == m[a := w % 0x100]
    ensures a + 2 <= ADDRS ==> Isa.Stored(m, a, 2, w) == m[a := w % 0x100][a + 1 := w / 0x100 % 0x100]
    ensures a + 4 <= ADDRS ==>
              Isa.Stored(m, a, 4, w) ==
                m[a := w % 0x100][a + 1 := w / 0x100 % 0x100][a + 2 := w / 0x1_0000 % 0x100][a
                  + 3 := w / 0x100_0000 % 0x100]
  {
    StoredStep(m, a, 1, w);
    Quotients(w);
    hide Isa.Stored;
    if a + 2 <= ADDRS {
      StoredStep(m, a, 2, w);
      StoredStep(m[a := w % 0x100], a + 1, 1, w / 0x100);
    }
    if a + 4 <= ADDRS {
      var m1: Bytes := m[a := w % 0x100];
      var m2: Bytes := m1[a + 1 := w / 0x100 % 0x100];
      var m3: Bytes := m2[a + 2 := w / 0x1_0000 % 0x100];
      StoredStep(m, a, 4, w);
      StoredStep(m1, a + 1, 3, w / 0x100);
      StoredStep(m2, a + 2, 2, w / 0x1_0000);
      StoredStep(m3, a + 3, 1, w / 0x100_0000);
    }
  }

  lemma StoredStep(m: Bytes, a: nat, n: nat, w: Word)
    requires 1 <= n && a + n <= ADDRS
    ensures Isa.Stored(m, a, n, w) == if n ==
              1 then m[a := w % 0x100] else Isa.Stored(m[a := w % 0x100], a + 1, n - 1, w / 0x100)
  {}

  lemma Quotients(w: Word)
    ensures w / 0x100 / 0x100 == w / 0x1_0000 && w / 0x1_0000 / 0x100 == w / 0x100_0000
  {}

  lemma StoreAgrees(f3: nat, a: Addr, w: Word, m: Bytes)
    requires f3 <= 2 && StoreAligned(f3, a) && a + Isa.Width(f3) <= ADDRS
    ensures StoreBytes(f3, a, w, m) == Isa.Stored(m, a, Isa.Width(f3), w)
  {
    hide Isa.Stored;
    StoredBytes(m, a, w);
    assert AlignedTo(f3, a) == a;
    assert w / 0x1_0000 / 0x100 == w / 0x100_0000;
  }

  /** A store leaves what the manual says for every memory and value if and only if its address is
      a multiple of its width. */
  lemma StoreExact(f3: nat, a: Addr)
    requires f3 <= 2 && a + Isa.Width(f3) <= ADDRS
    ensures (forall m: Bytes, w: Word :: StoreBytes(f3, a, w, m) == Isa.Stored(m, a, Isa.Width(f3), w)) <==>
              StoreAligned(f3, a)
  {
    if StoreAligned(f3, a) {
      forall m: Bytes, w: Word { StoreAgrees(f3, a, w, m); }
    } else {
      hide Isa.Stored;
      var m: Bytes, w: Word := seq(ADDRS, _ => 0), 0x0101_0101;
      var last := a + Isa.Width(f3) - 1;
      StoredBytes(m, a, w);
      assert Isa.Stored(m, a, Isa.Width(f3), w)[last] == 1;
      assert StoreBytes(f3, a, w, m)[last] == 0;
    }
  }

  /** At every address, for every memory: a byte load reads there, a signed halfword load the halfword
      around it, and all others, unsigned ones of a byte too, at the start of the word around it. */
  lemma LoadReads(f3: nat, a: Addr, m: Bytes)
    requires LoadLength(f3)
    ensures var at := if f3 == 0 then a else if f3 == 1 then a - a % 2 else a - a % 4;
            at + Isa.Width(f3) <= 0x8000 && LoadValue(f3, a, m) == Isa.Loaded(f3, m, at)
  {
    hide Isa.Loaded;
    var at: Addr := if f3 == 0 then a else if f3 == 1 then a - a % 2 else a - a % 4;
    RoundedDown(a);
    LoadAgrees(f3, at, m);
    assert AlignedTo(f3, at) == AlignedTo(f3, a);
  }

  /** A store writes at its address rounded down to a multiple of its width. */
  lemma StoreWrites(f3: nat, a: Addr, w: Word, m: Bytes)
    requires f3 <= 2
    ensures var at := if f3 == 0 then a else if f3 == 1 then a - a % 2 else a - a % 4;
            at + Isa.Width(f3) <= 0x8000 && StoreBytes(f3, a, w, m) == Isa.Stored(m, at, Isa.Width(f3), w)
  {
    hide Isa.Stored, PutByte, PutHalf, PutWord;
    var at: Addr := if f3 == 0 then a else if f3 == 1 then a - a % 2 else a - a % 4;
    RoundedDown(a);
    StoreAgrees(f3, at, w, m);
    assert AlignedTo(f3, at) == AlignedTo(f3, a);
  }

  lemma RoundedDown(a: Addr)
    ensures (a - a % 2) % 2 == 0 && a - a % 2 + 2 <= 0x8000 && (a - a % 4) % 4 == 0 && a - a % 4 + 4 <= 0x8000
  {}

  // ---- Words the manual does not define ----

  /** A register operation whose funct7 selects nothing writes zero; so does an immediate shift to the right,
      while one to the left does not look at its funct7. */
  lemma UndefinedComputes(x: ExeReg)
    requires !Isa.Legal(x.inst) && (KindOf(x.inst).Op? || KindOf(x.inst).OpImm?)
    ensures KindOf(x.inst).Op? ==> AluOut(x) == 0
    ensures KindOf(x.inst).OpImm? ==>
              AluOut(x) == if Isa.FieldF3(x.inst) == 1 then x.rs1 * Pow2(x.imm % 32) % 0x1_0000_0000 else 0
  {
    hide Xor, Or, And, ShiftRight, ShiftRightSigned, SignedLess, Pow2, ShiftLeft;
    ShiftLeftAgrees(x.rs1, x.imm % 32);
  }

  /** A load of an undefined length answers zero; a store of one clears the word around its address. */
  lemma UndefinedAccesses(f3: nat, a: Addr, w: Word, m: Bytes)
    requires f3 < 8
    ensures !LoadLength(f3) ==> LoadValue(f3, a, m) == 0
    ensures f3 > 2 ==> StoreBytes(f3, a, w, m) == Isa.Stored(m, a - a % 4, 4, 0)
  {
    hide Isa.Stored;
    RoundedDown(a);
    StoredBytes(m, a - a % 4, 0);
  }

  // ---- Whole instructions ----

  /** What the core asks of an instruction beyond its being legal: the alignments above, an even
      JALR sum, and a pc that stays in the 15-bit address space. */
  predicate Supported(i: Word, h: Isa.Hart) {
    var major, f3 := Isa.Major(i), Isa.FieldF3(i);
    && 0 <= h.pc < ADDRS && Isa.Legal(i) && Isa.InMemory(i, h)
    && 0 <= Isa.NextPc(i, h) < ADDRS
    && (major == 0x03 ==> LoadAligned(f3, Isa.Address(i, h)))
    && (major == 0x23 ==> StoreAligned(f3, Isa.Address(i, h)))
    && (major == 0x67 ==> Isa.Address(i, h) % 2 == 0)
    && (major == 0x67 || major == 0x6F ==> h.pc + 4 < ADDRS)
  }

  function HartOf(a: Arch): Isa.Hart { Isa.Hart(a.pc, a.regs, a.bytes) }

  lemma AddWrapped(a: int, b: int)
    ensures Wrap(a + b % WORDS) == (a + b) % WORDS
  {}

  lemma SetRegIs(regs: Regs, i: Word, v: Word)
    requires regs[0] == 0
    ensures WriteReg(regs, i, v) == if WritesRd(i) then Isa.SetReg(regs, Isa.FieldRd(i), v) else regs
  {
    hide KindOf;
  }

  lemma AddressIs(x: ExeReg, i: Word, h: Isa.Hart)
    requires x.inst == i && x.rs1 == h.regs[Isa.FieldRs1(i)] && x.imm == Imm(i)
    requires KindOf(i).Load? || KindOf(i).Store? || KindOf(i).Jalr?
    ensures AluOut(x) == Isa.Address(i, h)
  {
    hide ImmI, ImmS, Isa.IImm, Isa.SImm;
    ImmIAgrees(i); ImmSAgrees(i);
    AddWrapped(x.rs1, if KindOf(i).Store? then Isa.SImm(i) else Isa.IImm(i));
  }

  predicate NextPcAgrees(prog: Program, a: Arch) {
    var x := Operands(prog, a);
    (if Taken(x) then Target(x) else LowAddr(x.pc + 4)) == Isa.NextPc(x.inst, HartOf(a))
  }

  /** The pc moves as the manual says. */
  lemma NextPcConforms(prog: Program, a: Arch)
    requires Supported(Fetch(prog, a), HartOf(a))
    ensures NextPcAgrees(prog, a)
  {
    hide Supported, NextPcAgrees;
    match KindOf(Fetch(prog, a)) {
      case Jal => JalNextPc(prog, a);
      case Branch => BranchNextPc(prog, a);
      case Jalr => JalrNextPc(prog, a);
      case _ => PlainNextPc(prog, a);
    }
  }

  lemma JalNextPc(prog: Program, a: Arch)
    requires Supported(Fetch(prog, a), HartOf(a)) && KindOf(Fetch(prog, a)).Jal?
    ensures NextPcAgrees(prog, a)
  {
    hide ImmI, ImmB, ImmJ, ImmS, ImmU, Isa.IImm, Isa.BImm, Isa.JImm, Isa.Branches, BranchTaken, Isa.Legal, Isa.InMemory;
    hide LoadAligned, StoreAligned, Isa.FieldF3;
    var x, i := Operands(prog, a), Fetch(prog, a);
    ImmJAgrees(i);
    AddWrapped(a.pc, Isa.JImm(i));
  }

  lemma BranchNextPc(prog: Program, a: Arch)
    requires Supported(Fetch(prog, a), HartOf(a)) && KindOf(Fetch(prog, a)).Branch?
    ensures NextPcAgrees(prog, a)
  {
    hide ImmI, ImmB, ImmJ, ImmS, ImmU, Isa.IImm, Isa.BImm, Isa.JImm, Isa.Branches, BranchTaken, Isa.Legal, Isa.InMemory;
    hide LoadAligned, StoreAligned, Isa.FieldF3;
    var x, i := Operands(prog, a), Fetch(prog, a);
    BranchAgrees(i, x.rs1, x.rs2);
    ImmBAgrees(i);
    AddWrapped(a.pc, Isa.BImm(i));
  }

  lemma JalrNextPc(prog: Program, a: Arch)
    requires Supported(Fetch(prog, a), HartOf(a)) && KindOf(Fetch(prog, a)).Jalr?
    ensures NextPcAgrees(prog, a)
  {
    hide ImmI, ImmB, ImmJ, ImmS, ImmU, Isa.IImm, Isa.BImm, Isa.JImm, Isa.Branches, BranchTaken, Isa.Legal, Isa.InMemory;
    hide LoadAligned, StoreAligned, Isa.FieldF3;
    var x, i := Operands(prog, a), Fetch(prog, a);
    AddressIs(x, i, HartOf(a));
  }

  /** A JALR goes where the manual says if and only if its sum is an even address of the memory: the core
      keeps the low bit that the manual clears. */
  lemma JalrExactly(prog: Program, a: Arch)
    requires KindOf(Fetch(prog, a)).Jalr?
    ensures NextPcAgrees(prog, a) <==>
            Isa.Address(Fetch(prog, a), HartOf(a)) < 0x8000 && Isa.Address(Fetch(prog, a), HartOf(a)) % 2 == 0
  {
    hide ImmI, ImmB, ImmJ, ImmS, ImmU, Isa.IImm, Isa.BImm, Isa.JImm, Isa.Branches, BranchTaken, Isa.Address, AluOut;
    AddressIs(Operands(prog, a), Fetch(prog, a), HartOf(a));
  }

  /** What is supported, exactly: the pc of the core moves as the manual's does, a jump has a next
      instruction to link to, and loads and stores are inside the 32 KiB and so aligned. */
  lemma SupportedExactly(prog: Program, a: Arch)
    ensures var i, h := Fetch(prog, a), HartOf(a);
            var major, f3, at := i % 128, i / 4096 % 8, Isa.Address(i, h);
            Supported(i, h) <==>
              && Isa.Legal(i) && NextPcAgrees(prog, a)
              && (major == 0x67 || major == 0x6F ==> a.pc + 4 < 0x8000)
              && (major == 0x03 ==> at < 0x8000 && (f3 == 0 || (f3 == 1 && at % 2 == 0) || at % 4 == 0))
              && (major == 0x23 ==> at < 0x8000 && (f3 == 0 || (f3 == 1 && at % 2 == 0) || at % 4 == 0))
  {
    hide NextPcAgrees, Isa.Address, Isa.NextPc, Isa.Width, Isa.Legal, LoadAligned, StoreAligned;
    var i, h := Fetch(prog, a), HartOf(a);
    AddressIsWord(i, h);
    if Isa.Legal(i) { LegalLengths(i); }
    if Isa.Legal(i) && i % 128 == 0x03 { InsideExactly(i / 4096 % 8, Isa.Address(i, h)); }
    if Isa.Legal(i) && i % 128 == 0x23 { InsideExactly(i / 4096 % 8, Isa.Address(i, h)); }
    if Supported(i, h) { NextPcConforms(prog, a); }
    if NextPcAgrees(prog, a) {
      NextPcInside(prog, a);
      if KindOf(i).Jalr? { JalrExactly(prog, a); }
    }
  }

  lemma AddressIsWord(i: Word, h: Isa.Hart)
    ensures 0 <= Isa.Address(i, h) < WORDS
  {}

  lemma LegalLengths(i: Word)
    requires Isa.Legal(i)
    ensures Isa.Major(i) == 0x03 ==> LoadLength(i / 4096 % 8)
    ensures Isa.Major(i) == 0x23 ==> i / 4096 % 8 <= 2
  {}

  /** An access so aligned is inside the memory as soon as its first byte is. */
  lemma InsideExactly(f3: nat, at: Word)
    requires LoadLength(f3)
    ensures at + Isa.Width(f3) <= ADDRS && LoadAligned(f3, at) <==>
            at < 0x8000 && (f3 == 0 || (f3 == 1 && at % 2 == 0) || at % 4 == 0)
    ensures f3 <= 2 ==>
              (at + Isa.Width(f3) <= ADDRS && StoreAligned(f3, at) <==>
                at < 0x8000 && (f3 == 0 || (f3 == 1 && at % 2 == 0) || at % 4 == 0))
  {
    FourFit(at);
    if f3 == 1 { TwoFit(at); }
  }

  lemma FourFit(at: Word)
    ensures at % 4 == 0 ==> (at + 4 <= 0x8000 <==> at < 0x8000)
  {
    if at % 4 == 0 { assert at == 4 * (at / 4); }
  }

  lemma TwoFit(at: Word)
    ensures at % 2 == 0 ==> (at + 2 <= 0x8000 <==> at < 0x8000)
    ensures at % 4 == 0 ==> at % 2 == 0
  {
    if at % 2 == 0 { assert at == 2 * (at / 2); }
    if at % 4 == 0 { assert at == 2 * (2 * (at / 4)); }
  }

  lemma NextPcInside(prog: Program, a: Arch)
    requires NextPcAgrees(prog, a)
    ensures 0 <= Isa.NextPc(Fetch(prog, a), HartOf(a)) < ADDRS
  {
    hide Isa.NextPc, KindOf, AluOut, BranchTaken;
    var x := Operands(prog, a);
    var next := if Taken(x) then Target(x) else LowAddr(x.pc + 4);
    assert next == Isa.NextPc(x.inst, HartOf(a));
  }

  lemma PlainNextPc(prog: Program, a: Arch)
    requires Supported(Fetch(prog, a), HartOf(a))
    requires !KindOf(Fetch(prog, a)).Jal? && !KindOf(Fetch(prog, a)).Branch? && !KindOf(Fetch(prog, a)).Jalr?
    ensures NextPcAgrees(prog, a)
  {
    hide ImmI, ImmB, ImmJ, ImmS, ImmU, Isa.IImm, Isa.BImm, Isa.JImm, Isa.Branches, BranchTaken, Isa.Legal, Isa.InMemory;
    hide LoadAligned, StoreAligned, Isa.FieldF3;
  }

  /** A register-writing instruction writes the manual's value. */
  lemma DestConforms(prog: Program, a: Arch)
    requires a.regs[0] == 0 && Supported(Fetch(prog, a), HartOf(a))
    ensures DestAgrees(prog, a)
  {
    hide DestAgrees, Supported;
    match KindOf(Fetch(prog, a)) {
      case Load => LoadDest(prog, a);
      case OpImm => OpImmDest(prog, a);
      case Op => OpDest(prog, a);
      case Lui => LuiDest(prog, a);
      case Auipc => AuipcDest(prog, a);
      case Jal => LinkDest(prog, a);
      case Jalr => LinkDest(prog, a);
      case _ => NoDest(prog, a);
    }
  }

  predicate DestAgrees(prog: Program, a: Arch)
    requires Supported(Fetch(prog, a), HartOf(a))
  {
    var x := Operands(prog, a);
    WriteReg(a.regs, x.inst, DestValue(x, a.bytes)) == Isa.Execute(x.inst, HartOf(a)).regs
  }

  lemma LoadDest(prog: Program, a: Arch)
    requires a.regs[0] == 0 && Supported(Fetch(prog, a), HartOf(a)) && KindOf(Fetch(prog, a)).Load?
    ensures DestAgrees(prog, a)
  {
    hide ImmI, ImmB, ImmJ, ImmS, ImmU, Isa.IImm, Isa.UImm, Isa.NextPc, Isa.Compute, Alu, LoadValue;
    hide Isa.Loaded, Isa.Stored, Isa.SetReg, WriteReg;
    var x, h := Operands(prog, a), HartOf(a);
    var i := x.inst;
    SetRegIs(a.regs, i, DestValue(x, a.bytes));
    AddressIs(x, i, h);
    LoadAgrees(Funct3(i), Isa.Address(i, h), a.bytes);
  }

  lemma OpImmDest(prog: Program, a: Arch)
    requires a.regs[0] == 0 && Supported(Fetch(prog, a), HartOf(a)) && KindOf(Fetch(prog, a)).OpImm?
    ensures DestAgrees(prog, a)
  {
    hide ImmI, ImmB, ImmJ, ImmS, ImmU, Isa.IImm, Isa.UImm, Isa.NextPc, Isa.Compute, Alu, LoadValue;
    hide Isa.Loaded, Isa.Stored, Isa.SetReg, WriteReg;
    var x, h := Operands(prog, a), HartOf(a);
    var i := x.inst;
    SetRegIs(a.regs, i, DestValue(x, a.bytes));
    ImmIAgrees(i);
    ComputeAgrees(Funct3(i), Funct3(i) == 5 && Funct7(i) == 32, x.rs1, x.imm);
  }

  lemma OpDest(prog: Program, a: Arch)
    requires a.regs[0] == 0 && Supported(Fetch(prog, a), HartOf(a)) && KindOf(Fetch(prog, a)).Op?
    ensures DestAgrees(prog, a)
  {
    hide ImmI, ImmB, ImmJ, ImmS, ImmU, Isa.IImm, Isa.UImm, Isa.NextPc, Isa.Compute, Alu, LoadValue;
    hide Isa.Loaded, Isa.Stored, Isa.SetReg, WriteReg;
    var x, h := Operands(prog, a), HartOf(a);
    var i := x.inst;
    SetRegIs(a.regs, i, DestValue(x, a.bytes));
    ComputeAgrees(Funct3(i), Funct7(i) == 32, x.rs1, x.rs2);
  }

  lemma LuiDest(prog: Program, a: Arch)
    requires a.regs[0] == 0 && Supported(Fetch(prog, a), HartOf(a)) && KindOf(Fetch(prog, a)).Lui?
    ensures DestAgrees(prog, a)
  {
    hide ImmI, ImmB, ImmJ, ImmS, ImmU, Isa.IImm, Isa.UImm, Isa.NextPc, Isa.Compute, Alu, LoadValue;
    hide Isa.Loaded, Isa.Stored, Isa.SetReg, WriteReg;
    var x, h := Operands(prog, a), HartOf(a);
    var i := x.inst;
    SetRegIs(a.regs, i, DestValue(x, a.bytes));
    UpperAgrees(i, 0);
  }

  lemma AuipcDest(prog: Program, a: Arch)
    requires a.regs[0] == 0 && Supported(Fetch(prog, a), HartOf(a)) && KindOf(Fetch(prog, a)).Auipc?
    ensures DestAgrees(prog, a)
  {
    hide ImmI, ImmB, ImmJ, ImmS, ImmU, Isa.IImm, Isa.UImm, Isa.NextPc, Isa.Compute, Alu, LoadValue;
    hide Isa.Loaded, Isa.Stored, Isa.SetReg, WriteReg;
    var x, h := Operands(prog, a), HartOf(a);
    var i := x.inst;
    SetRegIs(a.regs, i, DestValue(x, a.bytes));
    UpperAgrees(i, a.pc);
  }

  lemma LinkDest(prog: Program, a: Arch)
    requires a.regs[0] == 0 && Supported(Fetch(prog, a), HartOf(a))
    requires KindOf(Fetch(prog, a)).Jal? || KindOf(Fetch(prog, a)).Jalr?
    ensures DestAgrees(prog, a)
  {
    hide AluOut;
    hide ImmI, ImmB, ImmJ, ImmS, ImmU, Isa.IImm, Isa.UImm, Isa.NextPc, Isa.Compute, Alu, LoadValue;
    hide Isa.Loaded, Isa.Stored, Isa.SetReg, WriteReg;
    var x, h := Operands(prog, a), HartOf(a);
    var i := x.inst;
    SetRegIs(a.regs, i, DestValue(x, a.bytes));
  }

  lemma NoDest(prog: Program, a: Arch)
    requires a.regs[0] == 0 && Supported(Fetch(prog, a), HartOf(a)) && !WritesRd(Fetch(prog, a))
    ensures DestAgrees(prog, a)
  {
    hide AluOut, DestValue, Isa.TwosComplement;
    hide ImmI, ImmB, ImmJ, ImmS, ImmU, Isa.IImm, Isa.UImm, Isa.NextPc, Isa.Compute, Alu, LoadValue;
    hide Isa.Loaded, Isa.Stored, Isa.SetReg, WriteReg;
    var x, h := Operands(prog, a), HartOf(a);
    var i := x.inst;
    SetRegIs(a.regs, i, DestValue(x, a.bytes));
  }

  lemma UpperAgrees(i: Word, base: Word)
    ensures ImmU(i) == Isa.UImm(i)
    ensures Alu(0xF8, base, ImmU(i)) == (base + Isa.UImm(i)) % WORDS
    ensures Alu(0xF8, 0, ImmU(i)) == Isa.UImm(i)
  {}

  lemma StoreConforms(prog: Program, a: Arch)
    requires Supported(Fetch(prog, a), HartOf(a))
    ensures var x := Operands(prog, a);
            StoreEffect(x, a.bytes) == Isa.Execute(x.inst, HartOf(a)).bytes
  {
    hide ImmI, ImmB, ImmJ, ImmS, ImmU, Isa.IImm, Isa.UImm, Isa.NextPc, Isa.Compute, Alu, LoadValue, Isa.Loaded;
    hide Isa.Stored, Isa.SetReg, StoreBytes, AluOut;
    var x, h := Operands(prog, a), HartOf(a);
    if KindOf(x.inst).Store? {
      AddressIs(x, x.inst, h);
      StoreAgrees(Funct3(x.inst), Isa.Address(x.inst, h), x.rs2, a.bytes);
    }
  }

  /** Every supported instruction has, on the core's datapath, the effect the manual gives it. */
  lemma InstructionConforms(prog: Program, a: Arch)
    requires a.regs[0] == 0 && Supported(Fetch(prog, a), HartOf(a))
    ensures HartOf(Effect(Operands(prog, a), a, false)) == Isa.Execute(Fetch(prog, a), HartOf(a))
  {
    NextPcConforms(prog, a);
    DestConforms(prog, a);
    StoreConforms(prog, a);
    assert DestAgrees(prog, a) && NextPcAgrees(prog, a);
    hide Taken, Target, DestValue, StoreEffect, Isa.NextPc, Isa.Legal, Isa.InMemory, Supported, Imm, WriteReg;
    hide Isa.Loaded, Isa.Stored, Isa.Compute, KindOf;
  }
}
