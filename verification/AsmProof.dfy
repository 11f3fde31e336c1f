/** The assembled program does what its lines say. */
module AsmProof {
  import opened Words
  import opened AsmModel

  // ---- Words that stay, and words whose operands are clean ----

  /** No later line writes over the words of line `k`. */
  ghost predicate Kept(at: Layout, lines: seq<Line>, k: nat)
    requires k < |lines|
  {
    forall j, x :: k < j < |lines| && Holds(at, lines, k, x) ==> !Holds(at, lines, j, x)
  }

  /** The operand a statement writes as an immediate without setting its type is no label left there by
      an earlier line. */
  predicate Clean(at: Layout, lines: seq<Line>, blank: nat -> Instr, k: nat)
    requires k < |lines| && lines[k].Code?
  {
    var was := Image(at, lines, blank, k, Place(at, lines, k) / 4);
    lines[k].stmt.Plain? ==>
      && (FormatOf(lines[k].stmt.op) == RRI ==> was.a3.tag == None)
      && (FormatOf(lines[k].stmt.op) == RI ==> was.a2.tag == None)
  }

  ghost predicate Sound(at: Layout, lines: seq<Line>, blank: nat -> Instr, k: nat)
    requires k < |lines|
  {
    lines[k].Code? && Kept(at, lines, k) && Clean(at, lines, blank, k)
  }

  /** The words of a kept line are what that line wrote over what it found. */
  lemma {:induction false} ImageStays(at: Layout, lines: seq<Line>, blank: nat -> Instr, k: nat, i: nat, x: nat)
    requires k < i <= |lines| && Holds(at, lines, k, x) && Kept(at, lines, k)
    ensures Image(at, lines, blank, i, x) ==
            Written(lines[k].stmt, x - Place(at, lines, k) / 4, Image(at, lines, blank, k, x))
  {
    hide Written, Place;
    if k + 1 < i { ImageStays(at, lines, blank, k, i - 1, x); }
  }

  // ---- Labels ----

  lemma LabelAddrSplits(a: seq<Loc>, b: seq<Loc>, name: string)
    ensures LabelAddr(a + b, name) == if LabelAddr(a, name).Some? then LabelAddr(a, name) else LabelAddr(b, name)
  {
    if a == [] {
      assert a + b == b;
    } else {
      assert (a + b)[1..] == a[1..] + b;
      LabelAddrSplits(a[1..], b, name);
    }
  }

  lemma {:induction false} AddrOfPrefix(at: Layout, lines: seq<Line>, i: nat, name: string)
    requires i <= |lines|
    ensures var d := Defining(lines, name, 0);
            LabelAddr(Labels(at, lines, i), name) == if d < i then Some(Place(at, lines, d) % WORDS) else None
  {
    hide Place;
    if i > 0 {
      AddrOfPrefix(at, lines, i - 1, name);
      var l := lines[i - 1];
      var last := if l.Label? then [Loc(l.name, Place(at, lines, i - 1))] else [];
      LabelAddrSplits(Labels(at, lines, i - 1), last, name);
      if l.Label? && l.name == name { assert Defining(lines, name, 0) <= i - 1; }
    }
  }

  /** A resolved label is the place of the first line that defines it. */
  lemma ResolvesToPlace(at: Layout, lines: seq<Line>, name: string)
    ensures LabelAddr(Labels(at, lines, |lines|), name) ==
            if Defining(lines, name, 0) < |lines| then Some(Marked(at, lines, name)) else None
  {
    hide Labels, LabelAddr, Place;
    AddrOfPrefix(at, lines, |lines|, name);
  }

  /** Lines that emit nothing do not move the place. */
  lemma {:induction false} LabelsStayPut(at: Layout, lines: seq<Line>, j: nat, k: nat)
    requires j <= k <= |lines| && forall i :: j <= i < k ==> lines[i].Label?
    ensures Place(at, lines, k) == Place(at, lines, j)
  {
    if j < k { LabelsStayPut(at, lines, j, k - 1); }
  }

  // ---- One line ----

  /** What line `k` left in its word `n` before labels were resolved. */
  function Left(at: Layout, lines: seq<Line>, blank: nat -> Instr, k: nat, n: nat): Instr
    requires k < |lines| && lines[k].Code?
  {
    Written(lines[k].stmt, n, Image(at, lines, blank, k, Place(at, lines, k) / 4 + n))
  }

  /** Word `n` of a kept line in the finished program. */
  lemma WordOf(at: Layout, lines: seq<Line>, blank: nat -> Instr, imem: seq<Instr>, k: nat, n: nat)
    requires Assembled(at, lines, blank, imem) && k < |lines| && lines[k].Code? && Kept(at, lines, k)
    requires n < Size(lines[k].stmt)
    ensures Place(at, lines, k) / 4 + n < |imem|
    ensures Resolve(Labels(at, lines, |lines|), Left(at, lines, blank, k, n), Place(at, lines, k) / 4 + n) ==
            Some(imem[Place(at, lines, k) / 4 + n])
  {
    hide Resolve, Labels, Written;
    var x := Place(at, lines, k) / 4 + n;
    assert InText(at, lines, k) && LineFits(at, lines, k);
    assert Holds(at, lines, k, x);
    ImageStays(at, lines, blank, k, |lines|, x);
    assert Assembly(at, lines, blank, x) == Some(imem[x]);
  }

  /** The word fetched at a line's place, and at the second word of a pair. */
  lemma Fetched(at: Layout, lines: seq<Line>, blank: nat -> Instr, imem: seq<Instr>, k: nat, n: nat, pc: Word)
    requires Assembled(at, lines, blank, imem) && k < |lines| && lines[k].Code? && Kept(at, lines, k)
    requires n < Size(lines[k].stmt)
    requires pc == Place(at, lines, k) + 4 * n
    ensures Resolve(Labels(at, lines, |lines|), Left(at, lines, blank, k, n), pc / 4) == Some(Fetch(imem, pc))
  {
    hide Assembled, Resolve, Labels, Place, Left, Kept;
    WordOf(at, lines, blank, imem, k, n);
    assert pc / 4 == Place(at, lines, k) / 4 + n;
  }

  lemma NextPlace(at: Layout, lines: seq<Line>, blank: nat -> Instr, imem: seq<Instr>, k: nat)
    requires Assembled(at, lines, blank, imem) && k < |lines| && lines[k].Code?
    ensures Place(at, lines, k) + 4 * Size(lines[k].stmt) < WORDS
  {
    assert Place(at, lines, k + 1) < WORDS && LineFits(at, lines, k);
  }

  /** The label a statement names. */
  function Target(s: Stmt): Option<string> {
    match s
    case BranchTo(_, _, _, l) => Some(l)
    case JalTo(_, l) => Some(l)
    case La(_, l) => Some(l)
    case J(l) => Some(l)
    case Bnez(_, l) => Some(l)
    case Beqz(_, l) => Some(l)
    case _ => None
  }

  /** An address put in the place of a label. */
  lemma TargetAddressed(at: Layout, lines: seq<Line>, a: Operand, l: string)
    requires Defined(Labels(at, lines, |lines|), AsLabel(a, l))
    ensures Addressed(Labels(at, lines, |lines|), AsLabel(a, l)) == a.(tag := None, imm := Marked(at, lines, l))
  {
    hide Labels, LabelAddr, Marked;
    ResolvesToPlace(at, lines, l);
  }

  predicate Transfers(s: Stmt) { s.BranchTo? || s.JalTo? || s.J? || s.Bnez? || s.Beqz? }

  /** The fields of a jump or branch once its label is resolved. */
  function Resolved(at: Layout, lines: seq<Line>, s: Stmt): Fields
    requires Transfers(s)
  {
    var w := Marked(at, lines, Target(s).value);
    match s
    case BranchTo(_, r1, r2, _) => Fields(r1, r2, 0, w)
    case JalTo(rd, _) => Fields(rd, 0, 0, w)
    case J(_) => Fields(0, 0, 0, w)
    case Bnez(r, _) => Fields(r, 0, 0, w)
    case Beqz(r, _) => Fields(r, 0, 0, w)
  }

  lemma JumpWord(at: Layout, lines: seq<Line>, s: Stmt, was: Instr, x: nat, i: Instr)
    requires Transfers(s) && Resolve(Labels(at, lines, |lines|), Written(s, 0, was), x) == Some(i)
    ensures FieldsOf(i) == Resolved(at, lines, s) && i.op == Written(s, 0, was).op
  {
    hide Labels, Marked, InRange, Addressed;
    var labels, j := Labels(at, lines, |lines|), Written(s, 0, was);
    if j.op == Jal {
      TargetAddressed(at, lines, was.a2, Target(s).value);
    } else {
      TargetAddressed(at, lines, was.a3, Target(s).value);
      RegStays(labels, j.a2);
    }
    RegStays(labels, j.a1);
  }

  lemma RegStays(labels: seq<Loc>, a: Operand)
    ensures Addressed(labels, a).reg == a.reg
  {}

  /** A plain statement's word has the fields it spells out, unless its immediate was left as a label:
      then that is the label's address, or the part of it the operation takes. */
  lemma PlainWord(labels: seq<Loc>, s: Stmt, was: Instr, x: nat, i: Instr)
    requires s.Plain? && Resolve(labels, Written(s, 0, was), x) == Some(i)
    ensures i.op == s.op
    ensures var f := FieldsOf(i);
            var a := if FormatOf(s.op) == RRI then was.a3 else was.a2;
            if s.op != Unimpl && (FormatOf(s.op) == RRI || FormatOf(s.op) == RI) && a.tag.Some? then
              LabelAddr(labels, a.tag.value).Some? &&
              f == Spelt(s).(imm := Part(s.op, LabelAddr(labels, a.tag.value).value))
            else f == Spelt(s)
  {
    hide LabelAddr, InRange;
    var j := Written(s, 0, was);
    RegStays(labels, j.a1);
    RegStays(labels, j.a2);
    RegStays(labels, j.a3);
  }

  /** The part of an address that an operation's immediate takes. */
  function Part(op: Op, a: Word): Word { if op == Lui then a / 0x1000 else if op == Addi then a % 0x1000 else a }

  /** The other one-word pseudo-instructions set the type of every operand they use. */
  lemma TypedWord(labels: seq<Loc>, s: Stmt, was: Instr, x: nat, i: Instr)
    requires s.Ret? || s.Mv?
    requires Resolve(labels, Written(s, 0, was), x) == Some(i)
    ensures i.op == (if s.Ret? then JALR else Addi)
    ensures FieldsOf(i) == if s.Ret? then Fields(0, 1, 0, 0) else Fields(s.rd, s.rs, 0, 0)
  {
    hide LabelAddr, InRange;
  }

  /** The constant a pair makes, and where. */
  function Dest(s: Stmt): nat { match s case Li(rd, _) => rd case La(rd, _) => rd case _ => 0 }

  function Constant(at: Layout, lines: seq<Line>, s: Stmt): Word {
    match s
    case Li(_, v) => v % WORDS
    case La(_, l) => Marked(at, lines, l)
    case _ => 0
  }

  lemma PairWords(at: Layout, lines: seq<Line>, s: Stmt, was: Instr, next: Instr, x: nat, y: nat, i: Instr, j: Instr)
    requires s.Li? || s.La?
    requires Resolve(Labels(at, lines, |lines|), Written(s, 0, was), x) == Some(i)
    requires Resolve(Labels(at, lines, |lines|), Written(s, 1, next), y) == Some(j)
    ensures i.op == Lui && FieldsOf(i) == Fields(Dest(s), 0, 0, Constant(at, lines, s) / 0x1000)
    ensures j.op == Addi && FieldsOf(j) == Fields(Dest(s), Dest(s), 0, Constant(at, lines, s) % 0x1000)
  {
    hide Labels, LabelAddr, Marked, InRange;
    if s.La? {
      hide Addressed;
      TargetAddressed(at, lines, was.a2, s.target);
      TargetAddressed(at, lines, next.a3, s.target);
      RegStays(Labels(at, lines, |lines|), AsReg(was.a1, s.rd));
      RegStays(Labels(at, lines, |lines|), AsReg(next.a1, s.rd));
      RegStays(Labels(at, lines, |lines|), AsReg(next.a2, s.rd));
    }
  }

  // ---- What a line does ----

  /** The machine after `n` instructions. */
  function Steps<R(!new)>(w: Machine<R>, imem: seq<Instr>, c: Cpu<R>, n: nat): Cpu<R>
    requires Shape(c) && Keeps(w)
    ensures Shape(Steps(w, imem, c, n))
  {
    if n == 0 then c else Step(w, imem, Steps(w, imem, c, n - 1))
  }

  lemma OneStep<R(!new)>(w: Machine<R>, imem: seq<Instr>, c: Cpu<R>)
    requires Shape(c) && Keeps(w)
    ensures Steps(w, imem, c, 1) == Step(w, imem, c)
  {
    assert Steps(w, imem, c, 0) == c;
  }

  lemma TwoSteps<R(!new)>(w: Machine<R>, imem: seq<Instr>, c: Cpu<R>)
    requires Shape(c) && Keeps(w) && Shape(Step(w, imem, c))
    ensures Steps(w, imem, c, 2) == Step(w, imem, Step(w, imem, c))
  {
    hide Step;
    OneStep(w, imem, c);
  }

  lemma Join(v: Word)
    ensures 0 <= v / 0x1000 * 0x1000 < WORDS && (v / 0x1000 * 0x1000 + v % 0x1000) % WORDS == v
  {}

  /** Upper and lower part of a constant make up the constant, in any register, from any state. */
  lemma PairMeans<R(!new)>(w: Machine<R>, imem: seq<Instr>, c: Cpu<R>, rd: nat, v: Word)
    requires Shape(c) && Keeps(w) && c.pc + 8 < WORDS
    requires var i := Fetch(imem, c.pc); i.op == Lui && FieldsOf(i) == Fields(rd, 0, 0, v / 0x1000)
    requires var j := Fetch(imem, c.pc + 4); j.op == Addi && FieldsOf(j) == Fields(rd, rd, 0, v % 0x1000)
    ensures Steps(w, imem, c, 2) == To(w, To(w, Set(c, rd, v), c.pc + 4), c.pc + 8)
  {
    hide Fetch, FieldsOf;
    Join(v);
    UpperStep(w, imem, c, rd, v);
    hide Steps;
    TwoSteps(w, imem, c);
    LowerStep(w, imem, Step(w, imem, c), rd, v);
    hide Step;
    if rd < 32 { assert c.rf[rd := v / 0x1000 * 0x1000][rd := v] == c.rf[rd := v]; }
  }

  lemma UpperStep<R>(w: Machine<R>, imem: seq<Instr>, c: Cpu<R>, rd: nat, v: Word)
    requires Shape(c) && c.pc + 8 < WORDS
    requires var i := Fetch(imem, c.pc); i.op == Lui && FieldsOf(i) == Fields(rd, 0, 0, v / 0x1000)
    ensures 0 <= v / 0x1000 * 0x1000 < WORDS
    ensures Step(w, imem, c) == Cpu(c.pc + 4, Set(c, rd, v / 0x1000 * 0x1000).rf, w.tick(c.rest))
  {
    hide Fetch, FieldsOf;
    Join(v);
  }

  lemma LowerStep<R>(w: Machine<R>, imem: seq<Instr>, c: Cpu<R>, rd: nat, v: Word)
    requires Shape(c) && c.pc + 4 < WORDS && (rd < 32 ==> c.rf[rd] == v / 0x1000 * 0x1000)
    requires var j := Fetch(imem, c.pc); j.op == Addi && FieldsOf(j) == Fields(rd, rd, 0, v % 0x1000)
    ensures Step(w, imem, c) == Cpu(c.pc + 4, Set(c, rd, v).rf, w.tick(c.rest))
  {
    hide Fetch, FieldsOf;
    Join(v);
  }

  lemma JumpMeans<R>(w: Machine<R>, at: Layout, lines: seq<Line>, s: Stmt, op: Op, c: Cpu<R>)
    requires Transfers(s) && Shape(c)
    requires op ==
               match s case BranchTo(k, _, _, _) => Branch(k) case Bnez(_, _) => Branch(Ne) case Beqz(_,
                 _) => Branch(Eq) case _ => Jal
    ensures Exec(w, op, Resolved(at, lines, s), c) == Means(w, at, lines, s, c)
  {
    hide Marked, Signed;
  }

  /** Every line that is kept and clean does, in as many instructions as it has words, what it says: a
      constant or a label's address ends up in the register, and a jump goes to the place its label
      marks. */
  lemma LineMeans<R(!new)>(w: Machine<R>, at: Layout, lines: seq<Line>, blank: nat -> Instr, imem: seq<Instr>, k: nat,
                           c: Cpu<R>)
    requires Assembled(at, lines, blank, imem) && k < |lines| && Sound(at, lines, blank, k) && Keeps(w) && Shape(c)
    requires c.pc == Place(at, lines, k)
    ensures Steps(w, imem, c, Size(lines[k].stmt)) == Means(w, at, lines, lines[k].stmt, c)
  {
    hide Assembled, Labels, LabelAddr, Place, Fetch, Steps, Resolve, Means, Exec, Kept, Clean, Image;
    hide Written, Keeps;
    NextPlace(at, lines, blank, imem, k);
    Fetched(at, lines, blank, imem, k, 0, c.pc);
    var s, i := lines[k].stmt, Fetch(imem, c.pc);
    if s.Li? || s.La? {
      Fetched(at, lines, blank, imem, k, 1, c.pc + 4);
      LineMeansPair(w, at, lines, blank, imem, k, c);
    } else {
      OneStep(w, imem, c);
      LineMeansOne(w, at, lines, blank, imem, k, c);
    }
  }

  lemma LineMeansPair<R(!new)>(w: Machine<R>, at: Layout, lines: seq<Line>, blank: nat -> Instr, imem: seq<Instr>,
                               k: nat, c: Cpu<R>)
    requires k < |lines| && lines[k].Code? && (lines[k].stmt.Li? || lines[k].stmt.La?)
    requires Keeps(w) && Shape(c) && c.pc + 8 < WORDS
    requires Resolve(Labels(at, lines, |lines|), Left(at, lines, blank, k, 0), c.pc / 4) == Some(Fetch(imem, c.pc))
    requires Resolve(Labels(at, lines, |lines|), Left(at, lines, blank, k, 1), (c.pc + 4) / 4) ==
               Some(Fetch(imem, c.pc + 4))
    ensures Steps(w, imem, c, 2) == Means(w, at, lines, lines[k].stmt, c)
  {
    hide Labels, Place, Fetch, Steps, Resolve, Image, Written, Keeps, FieldsOf, Marked;
    var s := lines[k].stmt;
    var was := Image(at, lines, blank, k, Place(at, lines, k) / 4);
    var next := Image(at, lines, blank, k, Place(at, lines, k) / 4 + 1);
    PairWords(at, lines, s, was, next, c.pc / 4, (c.pc + 4) / 4, Fetch(imem, c.pc), Fetch(imem, c.pc + 4));
    PairMeans(w, imem, c, Dest(s), Constant(at, lines, s));
  }

  lemma LineMeansOne<R>(w: Machine<R>, at: Layout, lines: seq<Line>, blank: nat -> Instr, imem: seq<Instr>, k: nat,
                        c: Cpu<R>)
    requires k < |lines| && lines[k].Code? && Size(lines[k].stmt) == 1 && Shape(c)
    requires Clean(at, lines, blank, k)
    requires Resolve(Labels(at, lines, |lines|), Left(at, lines, blank, k, 0), c.pc / 4) == Some(Fetch(imem, c.pc))
    ensures Step(w, imem, c) == Means(w, at, lines, lines[k].stmt, c)
  {
    hide Labels, Place, Fetch, Resolve, Image, Written, FieldsOf, Marked, Exec, Resolved, Spelt, LabelAddr;
    var s, i := lines[k].stmt, Fetch(imem, c.pc);
    var was := Image(at, lines, blank, k, Place(at, lines, k) / 4);
    if Transfers(s) {
      JumpWord(at, lines, s, was, c.pc / 4, i);
      JumpOp(s, was);
      JumpMeans(w, at, lines, s, i.op, c);
    } else if s.Plain? {
      PlainWord(Labels(at, lines, |lines|), s, was, c.pc / 4, i);
    } else {
      TypedWord(Labels(at, lines, |lines|), s, was, c.pc / 4, i);
      TypedMeans(w, at, lines, s, c);
    }
  }

  lemma JumpOp(s: Stmt, was: Instr)
    requires Transfers(s)
    ensures Written(s, 0, was).op ==
            match s case BranchTo(k, _, _, _) => Branch(k) case Bnez(_, _) => Branch(Ne) case Beqz(_,
              _) => Branch(Eq) case _ => Jal
  {}

  lemma TypedMeans<R>(w: Machine<R>, at: Layout, lines: seq<Line>, s: Stmt, c: Cpu<R>)
    requires (s.Ret? || s.Mv?) && Shape(c)
    ensures s.Ret? ==> Exec(w, JALR, Fields(0, 1, 0, 0), c) == Means(w, at, lines, s, c)
    ensures s.Mv? ==> Exec(w, Addi, Fields(s.rd, s.rs, 0, 0), c) == Means(w, at, lines, s, c)
  {}

  /** Where a line is kept but not clean, its immediate is what an earlier line's label stands for: it
      does what it spells out exactly if that happens to be the immediate it wrote. */
  lemma StaleLabelWins(at: Layout, lines: seq<Line>, blank: nat -> Instr, imem: seq<Instr>, k: nat)
    requires Assembled(at, lines, blank, imem) && k < |lines| && lines[k].Code? && Kept(at, lines, k)
    requires lines[k].stmt.Plain? && lines[k].stmt.op != Unimpl && !Clean(at, lines, blank, k)
    ensures Place(at, lines, k) / 4 < |imem|
    ensures var s, was := lines[k].stmt, Image(at, lines, blank, k, Place(at, lines, k) / 4);
            var a := if FormatOf(s.op) == RRI then was.a3 else was.a2;
            && a.tag.Some?
            && (FieldsOf(imem[Place(at, lines, k) / 4]) == Spelt(s) <==>
                Part(s.op, Marked(at, lines, a.tag.value)) == s.imm)
  {
    hide Assembled, Labels, LabelAddr, Place, Kept, Image, Written, Marked, Resolve;
    WordOf(at, lines, blank, imem, k, 0);
    NextPlace(at, lines, blank, imem, k);
    var s, was := lines[k].stmt, Image(at, lines, blank, k, Place(at, lines, k) / 4);
    PlainWord(Labels(at, lines, |lines|), s, was, Place(at, lines, k) / 4, imem[Place(at, lines, k) / 4]);
    ResolvesToPlace(at, lines, if FormatOf(s.op) == RRI then was.a3.tag.value else was.a2.tag.value);
  }

  // ---- The meanings, told on registers ----

  /** A branch line goes to the place its label marks if its two registers compare as the condition says,
      signed or unsigned, and to the next line otherwise; it changes no register. */
  lemma BranchGoes<R>(w: Machine<R>, at: Layout, lines: seq<Line>, c: Cpu<R>, cond: Cond, r1: nat, r2: nat, l: string)
    requires Shape(c) && r1 < 32 && r2 < 32
    ensures var x: int, y: int := c.rf[r1], c.rf[r2];
            var sx := if x < 0x8000_0000 then x else x - 0x1_0000_0000;
            var sy := if y < 0x8000_0000 then y else y - 0x1_0000_0000;
            var goes := match cond case Eq => x == y case Ne => x != y case Lt => sx < sy case Ge => sx >= sy
              case Ltu => x < y case Geu => x >= y;
            Means(w, at, lines, BranchTo(cond, r1, r2, l), c) ==
              Cpu(if goes then Marked(at, lines, l) else (c.pc + 4) % 0x1_0000_0000, c.rf, w.tick(c.rest))
  {
    hide Marked;
  }

  /** The shorthands for a test against zero read the two registers they name, x0 included. */
  lemma ZeroBranchGoes<R>(w: Machine<R>, at: Layout, lines: seq<Line>, c: Cpu<R>, r: nat, l: string)
    requires Shape(c) && r < 32
    ensures Means(w, at, lines, Beqz(r, l), c) == Means(w, at, lines, BranchTo(Eq, r, 0, l), c)
    ensures Means(w, at, lines, Bnez(r, l), c) == Means(w, at, lines, BranchTo(Ne, r, 0, l), c)
  {
    hide Marked;
  }

  /** What the lines that write a register leave in it, and where they go. */
  lemma WritersLeave<R>(w: Machine<R>, at: Layout, lines: seq<Line>, c: Cpu<R>, rd: nat, rs: nat, v: int, imm: Word,
                        l: string)
    requires Shape(c) && rd < 32 && rs < 32
    ensures var next, link := (c.pc + 4) % 0x1_0000_0000, (c.pc + 4) % 0x1_0000_0000;
            && Means(w, at, lines, JalTo(rd, l), c) == Cpu(Marked(at, lines, l), c.rf[rd := link], w.tick(c.rest))
            && Means(w, at, lines, J(l), c) == Cpu(Marked(at, lines, l), c.rf[0 := link], w.tick(c.rest))
            && Means(w, at, lines, Mv(rd, rs), c) == Cpu(next, c.rf[rd := c.rf[rs]], w.tick(c.rest))
            && Means(w, at, lines, Plain(Lui, rd, 0, 0, imm), c) ==
               Cpu(next, c.rf[rd := imm * 4096 % 0x1_0000_0000], w.tick(c.rest))
            && Means(w, at, lines, Plain(Addi, rd, rs, 0, imm), c) ==
               Cpu(next, c.rf[rd := (c.rf[rs] + imm) % 0x1_0000_0000], w.tick(c.rest))
    ensures var after := (c.pc + 8) % 0x1_0000_0000;
            && Means(w, at, lines, Li(rd, v), c) ==
               Cpu(after, c.rf[rd := v % 0x1_0000_0000], w.tick(w.tick(c.rest)))
            && Means(w, at, lines, La(rd, l), c) ==
               Cpu(after, c.rf[rd := Marked(at, lines, l)], w.tick(w.tick(c.rest)))
  {
    hide Marked;
  }

  /** Every other operation is handed the operands its line spells out. */
  lemma OthersSpelt<R>(w: Machine<R>, at: Layout, lines: seq<Line>, c: Cpu<R>, code: nat, r1: nat, r2: nat, r3: nat,
                       imm: Word)
    requires Shape(c)
    ensures Means(w, at, lines, Plain(Other(code, RRR), r1, r2, r3, imm), c) ==
            w.others(Other(code, RRR), Fields(r1, r2, r3, 0), c)
    ensures Means(w, at, lines, Plain(Other(code, RRI), r1, r2, r3, imm), c) ==
            w.others(Other(code, RRI), Fields(r1, r2, 0, imm), c)
    ensures Means(w, at, lines, Plain(Other(code, RI), r1, r2, r3, imm), c) ==
            w.others(Other(code, RI), Fields(r1, 0, 0, imm), c)
    ensures Means(w, at, lines, Ret, c) == w.others(Other(0, RRI), Fields(0, 1, 0, 0), c)
  {}

  /** How far each line moves the place: the sections to their starts, data by all of its elements, and
      an instruction by four bytes, or eight for the two pairs. */
  lemma PlaceAfter(at: Layout, lines: seq<Line>, i: nat)
    requires i < |lines|
    ensures var p := Place(at, lines, i);
            Place(at, lines, i + 1) ==
            match lines[i]
            case Text => at.text
            case Data => at.data
            case Elements(size, count) => p + size * count
            case Label(_) => p
            case Code(Li(_, _)) => p + 8
            case Code(La(_, _)) => p + 8
            case Code(_) => p + 4
  {}

  /** Which operands are labels once a word is written: a plain line leaves all three types as it finds them, a
      branch the first two and a jump the third; every other statement sets the types of those it uses. */
  lemma TypesLeft(s: Stmt, n: nat, was: Instr)
    requires n < Size(s)
    ensures var i := Written(s, n, was);
            && i.a1.tag == (if s.Plain? || s.BranchTo? then was.a1.tag else None)
            && i.a2.tag == (if s.Plain? || s.BranchTo? then was.a2.tag
                            else if s.JalTo? || s.J? || (s.La? && n == 0) then Some(s.target) else None)
            && i.a3.tag == (if s.Plain? || s.JalTo? || s.J? || ((s.Li? || s.La?) && n == 0) then was.a3.tag
                            else if s.BranchTo? || s.Bnez? || s.Beqz? || s.La? then Some(s.target) else None)
  {}

  // ---- Programs that do not return to the text section ----

  /** No line goes back to the start of the text section after an instruction. */
  predicate Forward(lines: seq<Line>) {
    forall j, k :: 0 <= j < k < |lines| && lines[j].Code? ==> !lines[k].Text?
  }

  /** Lines after an instruction are placed beyond its words. */
  lemma {:induction false} PlacesGrow(at: Layout, lines: seq<Line>, j: nat, k: nat)
    requires Fits(at, lines) && Forward(lines) && j < k <= |lines| && lines[j].Code? && InText(at, lines, j)
    ensures Place(at, lines, j) / 4 + Size(lines[j].stmt) <= Place(at, lines, k) / 4
  {
    assert LineFits(at, lines, j);
    if j + 1 < k {
      PlacesGrow(at, lines, j, k - 1);
      assert !lines[k - 1].Text?;
      Grows(at, Place(at, lines, k - 1), lines[k - 1], Place(at, lines, j) / 4 + Size(lines[j].stmt));
    }
  }

  lemma Grows(at: Layout, off: nat, line: Line, low: nat)
    requires !line.Text? && low <= off / 4 && low <= at.data / 4
    ensures low <= Advance(at, off, line) / 4
  {
    match line {
      case Elements(size, count) => Product(size, count);
      case _ =>
    }
  }

  lemma Product(x: nat, y: nat)
    ensures 0 <= x * y
  {}

  /** Words beyond the lines read so far are as they were. */
  lemma {:induction false} NotYetWritten(at: Layout, lines: seq<Line>, blank: nat -> Instr, k: nat, i: nat, x: nat)
    requires Fits(at, lines) && Forward(lines) && i <= k < |lines| && x >= Place(at, lines, k) / 4
    requires forall j :: 0 <= j < |lines| ==> InText(at, lines, j)
    ensures Image(at, lines, blank, i, x) == blank(x)
  {
    hide Fits, Forward, InText, Place, Written;
    if i > 0 {
      NotYetWritten(at, lines, blank, k, i - 1, x);
      if lines[i - 1].Code? { PlacesGrow(at, lines, i - 1, k); }
    }
  }

  /** In such a program every instruction is kept and clean. */
  lemma ForwardIsSound(at: Layout, lines: seq<Line>, blank: nat -> Instr, imem: seq<Instr>, k: nat)
    requires Assembled(at, lines, blank, imem) && k < |lines| && lines[k].Code?
    requires forall i, j :: 0 <= i < j < |lines| && lines[i].Code? ==> !lines[j].Text?
    ensures Sound(at, lines, blank, k)
  {
    assert Forward(lines);
    hide Forward, Place, LineFits, Image, Assembly;
    forall j, x | k < j < |lines| && Holds(at, lines, k, x)
      ensures !Holds(at, lines, j, x)
    {
      PlacesGrow(at, lines, k, j);
    }
    var x := Place(at, lines, k) / 4;
    assert InText(at, lines, k) && LineFits(at, lines, k);
    NotYetWritten(at, lines, blank, k, k, x);
    WithinMemory(at, lines, k);
    assert Untyped(blank, x);
  }

  lemma WithinMemory(at: Layout, lines: seq<Line>, k: nat)
    requires k < |lines| && lines[k].Code? && InText(at, lines, k)
    ensures Place(at, lines, k) / 4 < at.data / 4
  {}

  // ---- Whole runs ----

  /** The instruction line placed at `pc` whose words are kept and clean, or the number of lines. */
  ghost function LineAt(at: Layout, lines: seq<Line>, blank: nat -> Instr, pc: Word, from: nat): (k: nat)
    requires from <= |lines|
    ensures from <= k <= |lines|
    ensures k < |lines| ==> Sound(at, lines, blank, k) && Place(at, lines, k) == pc
    decreases |lines| - from
  {
    if from == |lines| || (Sound(at, lines, blank, from) && Place(at, lines, from) == pc) then from
    else LineAt(at, lines, blank, pc, from + 1)
  }

  /** `n` lines executed one after the other, as long as there is one at the pc. */
  ghost function SourceRun<R(!new)>(w: Machine<R>, at: Layout, lines: seq<Line>, blank: nat -> Instr, c: Cpu<R>,
                                    n: nat): Cpu<R>
    requires Shape(c) && Keeps(w)
    ensures Shape(SourceRun(w, at, lines, blank, c, n))
  {
    if n == 0 then c
    else
      var d := SourceRun(w, at, lines, blank, c, n - 1);
      var k := LineAt(at, lines, blank, d.pc, 0);
      if k == |lines| then d
      else MeansKeeps(w, at, lines, lines[k].stmt, d); Means(w, at, lines, lines[k].stmt, d)
  }

  lemma MeansKeeps<R(!new)>(w: Machine<R>, at: Layout, lines: seq<Line>, s: Stmt, c: Cpu<R>)
    requires Shape(c) && Keeps(w)
    ensures Shape(Means(w, at, lines, s, c))
  {}

  /** The machine instructions those lines take. */
  ghost function Cost<R(!new)>(w: Machine<R>, at: Layout, lines: seq<Line>, blank: nat -> Instr, c: Cpu<R>, n: nat): nat
    requires Shape(c) && Keeps(w)
  {
    if n == 0 then 0
    else
      var k := LineAt(at, lines, blank, SourceRun(w, at, lines, blank, c, n - 1).pc, 0);
      Cost(w, at, lines, blank, c, n - 1) + if k == |lines| then 0 else Size(lines[k].stmt)
  }

  lemma {:induction false} StepsCompose<R(!new)>(w: Machine<R>, imem: seq<Instr>, c: Cpu<R>, a: nat, b: nat)
    requires Shape(c) && Keeps(w)
    ensures Steps(w, imem, Steps(w, imem, c, a), b) == Steps(w, imem, c, a + b)
  {
    hide Step;
    if b > 0 { StepsCompose(w, imem, c, a, b - 1); }
  }

  /** Assembling preserves meaning: for every machine around the core, after any number of lines from
      any state, the core running the assembled words is, with all of the machine, in the very state
      the lines lead to. */
  lemma {:induction false} RunsAgree<R(!new)>(w: Machine<R>, at: Layout, lines: seq<Line>, blank: nat -> Instr,
                                              imem: seq<Instr>,
                                              c: Cpu<R>, n: nat)
    requires Assembled(at, lines, blank, imem) && Keeps(w) && Shape(c)
    ensures Steps(w, imem, c, Cost(w, at, lines, blank, c, n)) == SourceRun(w, at, lines, blank, c, n)
  {
    hide Assembled, Means, Size, Step, Kept, Clean, Place;
    if n > 0 {
      RunsAgree(w, at, lines, blank, imem, c, n - 1);
      var d := SourceRun(w, at, lines, blank, c, n - 1);
      var k := LineAt(at, lines, blank, d.pc, 0);
      if k < |lines| {
        LineMeans(w, at, lines, blank, imem, k, d);
        StepsCompose(w, imem, c, Cost(w, at, lines, blank, c, n - 1), Size(lines[k].stmt));
      }
    }
  }

  /** A word no line has written is passed over by the second pass, whatever its operands hold; any other word
      is resolved exactly if the labels it still names are defined and in range. */
  lemma ResolvesExactly(labels: seq<Loc>, i: Instr, x: nat)
    ensures i.op == Unimpl ==> Resolve(labels, i, x) == Some(i)
    ensures i.op != Unimpl ==>
              (Resolve(labels, i, x).Some? <==>
                && Defined(labels, i.a1) && Defined(labels, i.a2) && Defined(labels, i.a3) && InRange(labels, i, x))
  {
    hide LabelAddr, Distance, Signed;
  }

  // ---- Where labels lead ----

  /** The resolved operand of every kept jump and branch leads to the kept instruction line `t` that
      follows its label: fetching there gives the first word of that line, and the operand is four
      times the index of that word whenever the line is word-aligned. */
  lemma LabelsLead(at: Layout, lines: seq<Line>, blank: nat -> Instr, imem: seq<Instr>, k: nat, t: nat)
    requires Assembled(at, lines, blank, imem) && k < |lines| && lines[k].Code? && Kept(at, lines, k)
    requires Transfers(lines[k].stmt)
    requires t < |lines| && lines[t].Code? && Kept(at, lines, t) && Defining(lines, Target(lines[k].stmt).value, 0) <= t
    requires forall i :: Defining(lines, Target(lines[k].stmt).value, 0) <= i < t ==> lines[i].Label?
    ensures Place(at, lines, k) / 4 < |imem|
    ensures Leads(at, lines, blank, imem, t, FieldsOf(imem[Place(at, lines, k) / 4]).imm)
  {
    hide Assembled, Labels, LabelAddr, Place, Fetch, Resolve, Kept, Written, Image, FieldsOf;
    WordOf(at, lines, blank, imem, k, 0);
    var l, x := Target(lines[k].stmt).value, Place(at, lines, k) / 4;
    LabelsStayPut(at, lines, Defining(lines, l, 0), t);
    NextPlace(at, lines, blank, imem, t);
    var a := Marked(at, lines, l);
    assert a == Place(at, lines, t);
    Fetched(at, lines, blank, imem, t, 0, a);
    JumpWord(at, lines, lines[k].stmt, Image(at, lines, blank, k, x), x, imem[x]);
  }

  predicate Leads(at: Layout, lines: seq<Line>, blank: nat -> Instr, imem: seq<Instr>, t: nat, a: Word)
    requires t < |lines| && lines[t].Code?
  {
    && Resolve(Labels(at, lines, |lines|), Left(at, lines, blank, t, 0), a / 4) == Some(Fetch(imem, a))
    && a / 4 == Place(at, lines, t) / 4 && (Place(at, lines, t) % 4 == 0 ==> a == 4 * (a / 4))
  }

  // ---- Register zero ----

  /** A branch-if-not-zero tests what it says exactly when register 0 still holds zero, or the tested
      register differs from both. */
  lemma ZeroTestExact<R>(w: Machine<R>, at: Layout, lines: seq<Line>, c: Cpu<R>, r: nat, l: string)
    requires Shape(c) && r < 32 && Marked(at, lines, l) != (c.pc + 4) % WORDS
    ensures (Means(w, at, lines, Bnez(r, l), c).pc == Marked(at, lines, l) <==> Get(c, r) != 0) <==>
            (Get(c, 0) == 0 || (Get(c, r) != 0 && Get(c, r) != Get(c, 0)))
  {}

  /** Every plain jump destroys that zero. */
  lemma JumpSpoilsZero<R>(w: Machine<R>, at: Layout, lines: seq<Line>, c: Cpu<R>, l: string)
    requires Shape(c) && c.pc + 4 < WORDS
    ensures Get(Means(w, at, lines, J(l), c), 0) == c.pc + 4 != 0
  {}

  // ---- Range checks ----

  /** A branch is accepted exactly when its label is defined within 8 KiB; for a jump the check looks at
      what the third operand holds and never at the target. */
  lemma RangeChecks(labels: seq<Loc>, s: Stmt, was: Instr, x: nat)
    requires Transfers(s) && was.a1.tag == None && was.a2.tag == None && was.a3.tag == None
    ensures Resolve(labels, Written(s, 0, was), x).Some? <==>
            match LabelAddr(labels, Target(s).value)
            case None => false
            case Some(a) =>
              if s.JalTo? || s.J? then -0x20_0000 < Signed(was.a3.imm) - 4 * x < 0x20_0000
              else -0x2000 < Signed(a) - 4 * x < 0x2000
  {
    hide LabelAddr, Signed;
  }

  /** A jump to a label four megabytes away; the check is there to refuse two or more. */
  function FarCall(): seq<Line> { [Code(JalTo(1, "far")), Data, Elements(1, 0x40_0000), Label("far")] }

  const FarLayout := Layout(0, 4)

  /** It is assembled without a complaint. */
  lemma FarJumpAccepted()
    ensures Assembled(FarLayout, FarCall(), x => Nothing, [Instr(Jal, Operand(None, 1, 0), Operand(None, 0,
      0x40_0004), Nothing.a3)])
    ensures 0x40_0004 >= 0x20_0000
  {
    var at, lines, blank := FarLayout, FarCall(), (x: nat) => Nothing;
    assert Place(at, lines, 1) == 4;
    assert Place(at, lines, 2) == 4;
    assert Place(at, lines, 3) == 0x40_0004;
    assert Place(at, lines, 4) == 0x40_0004;
    assert Labels(at, lines, 3) == [];
    assert Labels(at, lines, 4) == [Loc("far", 0x40_0004)];
    assert Image(at, lines, blank, 1, 0) == Written(JalTo(1, "far"), 0, Nothing);
    assert Image(at, lines, blank, 4, 0) == Image(at, lines, blank, 1, 0);
  }
}
