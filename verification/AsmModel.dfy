/** The assembler at the level of tokens, and what the simulated CPU does with its output. */
module AsmModel {
  import opened Words

  datatype Cond = Eq | Ne | Lt | Ge | Ltu | Geu

  /** The operand fields an instruction uses: three registers, two and an immediate as third, one and
      an immediate as second, or none. */
  datatype Format = RRR | RRI | RI | Bare

  /** Operations whose operands can name a label, and all others. */
  datatype Op = Unimpl | Lui | Addi | Jal | Branch(cond: Cond) | Other(code: nat, format: Format)

  const JALR := Other(0, RRI)

  function FormatOf(op: Op): Format {
    match op
    case Unimpl => Bare
    case Lui => RI
    case Addi => RRI
    case Jal => RI
    case Branch(_) => RRI
    case Other(_, f) => f
  }

  /** An operand: the label it names while it is of the label type, and its other two fields, which
      keep what they last held. */
  datatype Operand = Operand(tag: Option<string>, reg: nat, imm: Word)

  datatype Instr = Instr(op: Op, a1: Operand, a2: Operand, a3: Operand)

  /** Operations written with their operands only: all but the jumps and branches, which name labels. */
  type PlainOp = op: Op | !op.Jal? && !op.Branch? witness Unimpl

  datatype Stmt =
    | Plain(op: PlainOp, r1: nat, r2: nat, r3: nat, imm: Word)
    | BranchTo(cond: Cond, r1: nat, r2: nat, target: string)
    | JalTo(rd: nat, target: string)
    | Li(rd: nat, value: int)
    | La(rd: nat, target: string)
    | Ret
    | J(target: string)
    | Mv(rd: nat, rs: nat)
    | Bnez(r: nat, target: string)
    | Beqz(r: nat, target: string)

  datatype Line = Text | Data | Elements(size: nat, count: nat) | Label(name: string) | Code(stmt: Stmt)

  /** Where the two sections start. */
  datatype Layout = Layout(text: nat, data: nat)

  /** Words a statement is assembled to. */
  function Size(s: Stmt): nat { if s.Li? || s.La? then 2 else 1 }

  // The ways an operand is written: the type may be set with the field, or left as it was.

  function KeepReg(a: Operand, r: nat): Operand { a.(reg := r) }

  function KeepImm(a: Operand, w: Word): Operand { a.(imm := w) }

  function AsReg(a: Operand, r: nat): Operand { a.(tag := None, reg := r) }

  function AsImm(a: Operand, w: Word): Operand { a.(tag := None, imm := w) }

  function AsLabel(a: Operand, name: string): Operand { a.(tag := Some(name)) }

  /** Writes word `n` of statement `s` over what the instruction memory holds there. */
  function Written(s: Stmt, n: nat, was: Instr): Instr {
    var a1, a2, a3 := was.a1, was.a2, was.a3;
    match s
    case Plain(op, r1, r2, r3, imm) =>
      (match FormatOf(op)
       case RRR => Instr(op, KeepReg(a1, r1), KeepReg(a2, r2), KeepReg(a3, r3))
       case RRI => Instr(op, KeepReg(a1, r1), KeepReg(a2, r2), KeepImm(a3, imm))
       case RI => Instr(op, KeepReg(a1, r1), KeepImm(a2, imm), a3)
       case Bare => Instr(op, a1, a2, a3))
    case BranchTo(c, r1, r2, l) => Instr(Branch(c), KeepReg(a1, r1), KeepReg(a2, r2), AsLabel(a3, l))
    case JalTo(rd, l) => Instr(Jal, AsReg(a1, rd), AsLabel(a2, l), a3)
    case Li(rd, v) =>
      var w := v % WORDS;
      if n == 0 then Instr(Lui, AsReg(a1, rd), AsImm(a2, w / 0x1000), a3)
      else Instr(Addi, AsReg(a1, rd), AsReg(a2, rd), AsImm(a3, w % 0x1000))
    case La(rd, l) =>
      if n == 0 then Instr(Lui, AsReg(a1, rd), AsLabel(a2, l), a3)
      else Instr(Addi, AsReg(a1, rd), AsReg(a2, rd), AsLabel(a3, l))
    case Ret => Instr(JALR, AsReg(a1, 0), AsReg(a2, 1), AsImm(a3, 0))
    case J(l) => Instr(Jal, AsReg(a1, 0), AsLabel(a2, l), a3)
    case Mv(rd, rs) => Instr(Addi, AsReg(a1, rd), AsReg(a2, rs), AsImm(a3, 0))
    case Bnez(r, l) => Instr(Branch(Ne), AsReg(a1, r), AsReg(a2, 0), AsLabel(a3, l))
    case Beqz(r, l) => Instr(Branch(Eq), AsReg(a1, r), AsReg(a2, 0), AsLabel(a3, l))
  }

  // ---- First pass: places and labels ----

  /** The offset after a line. */
  function Advance(at: Layout, off: nat, line: Line): nat {
    match line
    case Text => at.text
    case Data => at.data
    case Elements(size, count) => off + size * count
    case Label(_) => off
    case Code(s) => off + 4 * Size(s)
  }

  /** The offset at which line `i` is assembled; the assembler starts at zero. */
  function Place(at: Layout, lines: seq<Line>, i: nat): nat
    requires i <= |lines|
  {
    if i == 0 then 0 else Advance(at, Place(at, lines, i - 1), lines[i - 1])
  }

  datatype Loc = Loc(name: string, loc: nat)

  function Labels(at: Layout, lines: seq<Line>, i: nat): seq<Loc>
    requires i <= |lines|
  {
    if i == 0 then []
    else
      Labels(at, lines, i - 1) +
      (if lines[i - 1].Label? then [Loc(lines[i - 1].name, Place(at, lines, i - 1))] else [])
  }

  /** Line `k` is assembled into word `x`, among others. */
  predicate Holds(at: Layout, lines: seq<Line>, k: nat, x: int)
    requires k < |lines|
  {
    lines[k].Code? && Place(at, lines, k) / 4 <= x < Place(at, lines, k) / 4 + Size(lines[k].stmt)
  }

  /** The instruction memory before assembly: nothing but unused words whose operands have no type. */
  predicate Untyped(blank: nat -> Instr, x: nat) {
    blank(x).op == Unimpl && blank(x).a1.tag == None && blank(x).a2.tag == None && blank(x).a3.tag == None
  }

  /** Word `x` of the instruction memory after the first `i` lines. */
  function Image(at: Layout, lines: seq<Line>, blank: nat -> Instr, i: nat, x: nat): Instr
    requires i <= |lines|
  {
    if i == 0 then blank(x)
    else
      var was := Image(at, lines, blank, i - 1, x);
      if Holds(at, lines, i - 1, x) then Written(lines[i - 1].stmt, x - Place(at, lines, i - 1) / 4, was) else was
  }

  /** The assembler stops at an instruction that starts beyond the text section. */
  predicate InText(at: Layout, lines: seq<Line>, k: nat)
    requires k < |lines|
  {
    lines[k].Code? ==> Place(at, lines, k) + 4 <= at.data
  }

  predicate LineFits(at: Layout, lines: seq<Line>, k: nat)
    requires k < |lines|
  {
    lines[k].Code? && InText(at, lines, k) ==> Place(at, lines, k) / 4 + Size(lines[k].stmt) <= at.data / 4
  }

  /** What the assembler takes for granted: room for both words of a pair, and offsets that fit a signed
      word. */
  predicate Fits(at: Layout, lines: seq<Line>) {
    && (forall k :: 0 <= k < |lines| ==> LineFits(at, lines, k))
    && (forall k :: 0 <= k <= |lines| ==> Place(at, lines, k) < 0x8000_0000)
  }

  // ---- Second pass: resolution ----

  /** The address of the first label of that name. */
  function LabelAddr(labels: seq<Loc>, name: string): Option<Word> {
    if labels == [] then None
    else if labels[0].name == name then Some(labels[0].loc % WORDS)
    else LabelAddr(labels[1..], name)
  }

  function Distance(a: int, b: int): nat { if a < b then b - a else a - b }

  /** An operand with its label replaced by the address, as far as the label is defined. */
  function Addressed(labels: seq<Loc>, a: Operand): Operand {
    match a.tag
    case None => a
    case Some(l) => a.(tag := None, imm := match LabelAddr(labels, l) case None => 0 case Some(w) => w)
  }

  predicate Defined(labels: seq<Loc>, a: Operand) { a.tag.Some? ==> LabelAddr(labels, a.tag.value).Some? }

  /** The range checks: a branch to a label checks its target, a jump its third operand instead. */
  predicate InRange(labels: seq<Loc>, i: Instr, x: nat) {
    && (i.op.Jal? && i.a2.tag.Some? ==> Distance(4 * x, Signed(i.a3.imm)) < 0x20_0000)
    && (i.op.Branch? && i.a3.tag.Some? ==> Distance(4 * x, Signed(Addressed(labels, i.a3).imm)) < 0x2000)
  }

  /** One word resolved; the pair of a label's address takes its upper and its lower part. */
  function Resolve(labels: seq<Loc>, i: Instr, x: nat): Option<Instr> {
    if i.op == Unimpl then Some(i)
    else if !Defined(labels, i.a1) || !Defined(labels, i.a2) || !Defined(labels, i.a3) || !InRange(labels, i, x)
      then None
    else
      var b2, b3 := Addressed(labels, i.a2), Addressed(labels, i.a3);
      Some(Instr(i.op, Addressed(labels, i.a1),
                 if i.op == Lui && i.a2.tag.Some? then b2.(imm := b2.imm / 0x1000) else b2,
                 if i.op == Addi && i.a3.tag.Some? then b3.(imm := b3.imm % 0x1000) else b3))
  }

  /** Word `x` of the assembled program. */
  function Assembly(at: Layout, lines: seq<Line>, blank: nat -> Instr, x: nat): Option<Instr> {
    Resolve(Labels(at, lines, |lines|), Image(at, lines, blank, |lines|, x), x)
  }

  /** The program is assembled without a complaint, to `imem`. */
  predicate Assembled(at: Layout, lines: seq<Line>, blank: nat -> Instr, imem: seq<Instr>) {
    && Fits(at, lines) && |imem| == at.data / 4
    && (forall k :: 0 <= k < |lines| ==> InText(at, lines, k))
    && (forall x :: 0 <= x < |imem| ==> Untyped(blank, x))
    && (forall x :: 0 <= x < |imem| ==> Assembly(at, lines, blank, x) == Some(imem[x]))
  }

  // ---- Execution ----

  /** The pc, the registers, and everything else: memories, devices, requests under way. */
  datatype Cpu<R> = Cpu(pc: Word, rf: seq<Word>, rest: R)

  predicate Shape<R>(c: Cpu<R>) { |c.rf| == 32 }

  /** The fields an instruction's format uses, the others blanked out. */
  datatype Fields = Fields(r1: nat, r2: nat, r3: nat, imm: Word)

  function FieldsOf(i: Instr): Fields {
    match FormatOf(i.op)
    case RRR => Fields(i.a1.reg, i.a2.reg, i.a3.reg, 0)
    case RRI => Fields(i.a1.reg, i.a2.reg, 0, i.a3.imm)
    case RI => Fields(i.a1.reg, 0, 0, i.a2.imm)
    case Bare => Fields(0, 0, 0, 0)
  }

  /** The rest of the machine: what the instructions that can name no label do to all of the state, and
      how everything else moves on while another instruction executes. */
  datatype Machine<!R> = Machine(others: (Op, Fields, Cpu<R>) -> Cpu<R>, tick: R -> R)

  /** Registers stay registers; nothing else is assumed. */
  ghost predicate Keeps<R(!new)>(w: Machine<R>) {
    forall op, f, c :: Shape(c) ==> Shape(w.others(op, f, c))
  }

  function Taken(c: Cond, x: Word, y: Word): bool {
    match c
    case Eq => x == y
    case Ne => x != y
    case Lt => Signed(x) < Signed(y)
    case Ge => Signed(x) >= Signed(y)
    case Ltu => x < y
    case Geu => x >= y
  }

  function Get<R>(c: Cpu<R>, r: nat): Word
    requires Shape(c)
  {
    if r < 32 then c.rf[r] else 0
  }

  /** Register 0 is a register like any other. */
  function Set<R>(c: Cpu<R>, r: nat, v: Word): Cpu<R>
    requires Shape(c)
  {
    if r < 32 then c.(rf := c.rf[r := v]) else c
  }

  /** Moves to `pc` while the rest of the machine moves on. */
  function To<R>(w: Machine<R>, c: Cpu<R>, pc: int): Cpu<R> { c.(pc := pc % WORDS, rest := w.tick(c.rest)) }

  /** One instruction. */
  function Exec<R>(w: Machine<R>, op: Op, f: Fields, c: Cpu<R>): Cpu<R>
    requires Shape(c)
  {
    match op
    case Lui => To(w, Set(c, f.r1, f.imm * 0x1000 % WORDS), c.pc + 4)
    case Addi => To(w, Set(c, f.r1, (Get(c, f.r2) + f.imm) % WORDS), c.pc + 4)
    case Jal => To(w, Set(c, f.r1, (c.pc + 4) % WORDS), f.imm)
    case Branch(cond) => To(w, c, if Taken(cond, Get(c, f.r1), Get(c, f.r2)) then f.imm else c.pc + 4)
    case _ => w.others(op, f, c)
  }

  const Nothing := Instr(Unimpl, Operand(None, 0, 0), Operand(None, 0, 0), Operand(None, 0, 0))

  /** Fetches by word index, so the two low bits of the pc are ignored. */
  function Fetch(imem: seq<Instr>, pc: Word): Instr { if pc / 4 < |imem| then imem[pc / 4] else Nothing }

  function Step<R>(w: Machine<R>, imem: seq<Instr>, c: Cpu<R>): Cpu<R>
    requires Shape(c)
  {
    var i := Fetch(imem, c.pc);
    Exec(w, i.op, FieldsOf(i), c)
  }

  // ---- What the statements mean ----

  /** The fields a plain statement spells out. */
  function Spelt(s: Stmt): Fields
    requires s.Plain?
  {
    match FormatOf(s.op)
    case RRR => Fields(s.r1, s.r2, s.r3, 0)
    case RRI => Fields(s.r1, s.r2, 0, s.imm)
    case RI => Fields(s.r1, 0, 0, s.imm)
    case Bare => Fields(0, 0, 0, 0)
  }

  /** The meaning of a statement in terms of its tokens: labels stand for the places they mark, and the
      rest of the machine moves on once for every word. */
  function Means<R>(w: Machine<R>, at: Layout, lines: seq<Line>, s: Stmt, c: Cpu<R>): Cpu<R>
    requires Shape(c)
  {
    match s
    case Plain(op, _, _, _, _) => Exec(w, op, Spelt(s), c)
    case BranchTo(cond, r1, r2, l) =>
      To(w, c, if Taken(cond, Get(c, r1), Get(c, r2)) then Marked(at, lines, l) else c.pc + 4)
    case JalTo(rd, l) => To(w, Set(c, rd, (c.pc + 4) % WORDS), Marked(at, lines, l))
    case Li(rd, v) => To(w, To(w, Set(c, rd, v % WORDS), c.pc + 4), c.pc + 8)
    case La(rd, l) => To(w, To(w, Set(c, rd, Marked(at, lines, l)), c.pc + 4), c.pc + 8)
    case Ret => w.others(JALR, Fields(0, 1, 0, 0), c)
    case J(l) => To(w, Set(c, 0, (c.pc + 4) % WORDS), Marked(at, lines, l))
    case Mv(rd, rs) => To(w, Set(c, rd, Get(c, rs)), c.pc + 4)
    case Bnez(r, l) => To(w, c, if Get(c, r) != Get(c, 0) then Marked(at, lines, l) else c.pc + 4)
    case Beqz(r, l) => To(w, c, if Get(c, r) == Get(c, 0) then Marked(at, lines, l) else c.pc + 4)
  }

  /** The place of the first line that defines label `l`. */
  function Marked(at: Layout, lines: seq<Line>, l: string): Word {
    if Defining(lines, l, 0) < |lines| then Place(at, lines, Defining(lines, l, 0)) % WORDS else 0
  }

  function Defining(lines: seq<Line>, l: string, from: nat): (k: nat)
    requires from <= |lines|
    ensures from <= k <= |lines|
    ensures k < |lines| ==> lines[k] == Label(l)
    ensures forall j :: from <= j < k ==> lines[j] != Label(l)
    decreases |lines| - from
  {
    if from == |lines| || lines[from] == Label(l) then from else Defining(lines, l, from + 1)
  }
}
