/** The accelerator and the DMA engine together: the engine brings both operands into the SRAM, the
    SRAM is unpacked into matrices, and the array multiplies them. */
module EndToEnd {
  import opened Words
  import opened DmaModel
  import opened DmaProof
  import opened DmaRuns
  import opened DmaCopy
  import opened Handshake
  import opened Routing
  import opened MatrixMath
  import opened SystolicArrays
  import opened Accelerators

  /** What the accelerator supports: square operands of one size, rows of whole words, word-aligned
      and apart in the SRAM, and every byte of them in data memory routed to it. */
  predicate Square(p: Setup) {
    && p.Valid() && p.m == p.k == p.strideA == p.strideB && p.m % 4 == 0 && p.m * p.m <= 2048
    && p.aAddr % 4 == 0 && p.bAddr % 4 == 0
    && p.aAddr + p.m * p.m <= SRAM_BYTES && p.bAddr + p.m * p.m <= SRAM_BYTES
    && (p.aAddr + p.m * p.m <= p.bAddr || p.bAddr + p.m * p.m <= p.aAddr)
    && InDataMemory(p.aHome, p.m * p.m) && InDataMemory(p.bHome, p.m * p.m)
  }

  /** The `n` bytes from `home` belong to the data memory. */
  predicate InDataMemory(home: Word, n: nat) {
    home + n <= WORDS && forall x :: home <= x < home + n ==> SlaveIndex(x) == 0
  }

  /** Where an operand can lie: below the registers of the engine, between the ranges of the devices, or above
      the SRAM. */
  lemma DataMemoryExactly(home: Word, n: nat)
    requires n > 0
    ensures InDataMemory(home, n) <==>
              || home + n <= 0xF000
              || (0xF040 <= home && home + n <= 0x1_2000)
              || (0x1_20F1 <= home && home + n <= 0x2_0000)
              || (0x2_8001 <= home && home + n <= 0x1_0000_0000)
  {
    if InDataMemory(home, n) {
      IsRouted(home, n, home);
      IsRouted(home, n, home + n - 1);
      hide InDataMemory;
      if home < 0xF000 < home + n { IsRouted(home, n, 0xF000); }
      else if home < 0x1_2000 < home + n { IsRouted(home, n, 0x1_2000); }
      else if home < 0x2_0000 < home + n { IsRouted(home, n, 0x2_0000); }
    }
  }

  lemma IsRouted(home: Word, n: nat, x: Word)
    requires InDataMemory(home, n) && home <= x < home + n
    ensures SlaveIndex(x) == 0
  {}

  /** The supported setups, with every bound written out: square operands of up to 44 rows whose rows are whole
      words, anywhere apart in the 32000 bytes of SRAM. */
  lemma SquareExactly(p: Setup)
    ensures Square(p) <==>
              && 4 <= p.m <= 44 && p.m == p.k == p.strideA == p.strideB && p.m % 4 == 0
              && p.aAddr % 4 == 0 && p.bAddr % 4 == 0
              && p.aAddr + p.m * p.m <= 32000 && p.bAddr + p.m * p.m <= 32000
              && (p.aAddr + p.m * p.m <= p.bAddr || p.bAddr + p.m * p.m <= p.aAddr)
              && InDataMemory(p.aHome, p.m * p.m) && InDataMemory(p.bHome, p.m * p.m)
  {
    hide InDataMemory;
    if Square(p) { SquareSizes(p); }
    if 4 <= p.m <= 44 { Monotone(p.m, 44, p.m); Monotone(p.m, 44, 44); }
  }

  lemma SquareSizes(p: Setup)
    requires Square(p)
    ensures 4 <= p.m <= 44 && p.strideA == p.strideB == p.m && p.m % 4 == 0 && p.aAddr % 4 == 0 && p.bAddr % 4 == 0
    ensures p.aAddr + p.m * p.m <= SRAM_BYTES && p.bAddr + p.m * p.m <= SRAM_BYTES
    ensures p.aHome + p.m * p.m <= WORDS && p.bHome + p.m * p.m <= WORDS
  {
    if p.m >= 46 { Large(p.m); }
  }

  lemma Large(m: nat)
    requires m >= 46
    ensures m * m >= 46 * 46
  {
    Monotone(46, m, m);
  }

  /** The transfer of a square operand: its rows lie end to end at both ends. */
  function Operand(home: Word, addr: Word, s: nat): Config
    requires addr < SRAM_BYTES
  {
    Config(home, addr + SRAM_BASE, s, s, s, s)
  }

  lemma SquareOrders(p: Setup)
    requires Square(p)
    ensures p.aAddr < SRAM_BYTES && p.bAddr < SRAM_BYTES
    ensures ConfigOf(OrderA(p)) == Operand(p.aHome, p.aAddr, p.m)
    ensures ConfigOf(OrderB(p)) == Operand(p.bHome, p.bAddr, p.m)
  {
    hide Packed, ConfigOf;
    SquareSizes(p);
    Positive(p.m, p.m);
    SquareOrder(p.aHome, p.aAddr, p.m);
    SquareOrder(p.bHome, p.bAddr, p.m);
  }

  lemma SquareOrder(home: Word, addr: Word, s: nat)
    requires 1 <= s <= 44 && addr < SRAM_BYTES
    ensures ConfigOf(Order(home, (addr + SRAM_BASE) % WORDS, Packed(s, s - 1, s - 1))) == Operand(home, addr, s)
  {
    hide Packed, Decode;
    PackedDecodes(s, s - 1, s - 1, home, (addr + SRAM_BASE) % WORDS);
  }

  /** Rows lie end to end: any order of landing will do. */
  lemma OperandFits(home: Word, addr: Word, s: nat)
    requires 4 <= s <= 44 && s % 4 == 0 && home + s * s <= WORDS && addr + s * s <= SRAM_BYTES && addr < SRAM_BYTES
    ensures var c := Operand(home, addr, s); Fits(c) && OrderFree(c) && 4 * c.WordsPerRow() == s
  {
    assert (s - 1) * s + s == s * s;
  }

  /** A word of an operand lies wholly within its `s * s` bytes of the SRAM. */
  lemma OperandInside(mem: Bytes, home: Word, addr: Word, s: nat, w: WriteReq)
    requires 4 <= s <= 44 && s % 4 == 0 && home + s * s <= WORDS && addr + s * s <= SRAM_BYTES && addr < SRAM_BYTES
    requires Operand(home, addr, s).Valid() && w in Writes(Operand(home, addr, s), mem)
    ensures SRAM_BASE + addr <= w.addr && w.addr + 4 <= SRAM_BASE + addr + s * s
  {
    var c := Operand(home, addr, s);
    var g :| 0 <= g < c.TotalWords() && Writes(c, mem)[g] == w;
    OperandWord(home, addr, s, g);
    WordCount(c);
    WritesAt(c, mem, g);
  }

  lemma OperandWord(home: Word, addr: Word, s: nat, g: nat)
    requires 4 <= s <= 44 && s % 4 == 0 && home + s * s <= WORDS && addr + s * s <= SRAM_BYTES && addr < SRAM_BYTES
    requires g < Operand(home, addr, s).TotalWords()
    ensures Operand(home, addr, s).WordsPerRow() > 0
    ensures SRAM_BASE + addr <= Operand(home, addr, s).DstAddr(g)
    ensures Operand(home, addr, s).DstAddr(g) + 4 <= SRAM_BASE + addr + s * s
  {
    var c := Operand(home, addr, s);
    OperandFits(home, addr, s);
    Addresses(c, g);
    InPlace(c.Row(g), c.Col(g), s);
  }

  lemma InPlace(row: nat, col: nat, s: nat)
    requires row < s && 4 * col + 4 <= s
    ensures 0 <= row * s && row * s + 4 * col + 4 <= s * s
  {
    Monotone(0, row, s);
    Monotone(row + 1, s, s);
  }

  /** The issued writes are those of the two operands. */
  lemma BothIssued(mem: Bytes, p: Setup, before: multiset<WriteReq>, sys: System, ss: seq<System>, hs: seq<Happening>,
                   landed: seq<WriteReq>)
    requires Square(p) && IsRoutedRun(mem, p, before, sys, ss, hs) && ss[|hs|].accel == Compute
    requires before + multiset(landed) == multiset(WritesOf(ss[|hs|].dma.sent)) + multiset(WritesOf(ss[|hs|].dma.queue))
    ensures multiset(landed) == Issued(Reads(mem), OrderA(p)) + Issued(Reads(mem), OrderB(p))
  {
    hide WritesOf, Issued, OrderA, OrderB, Square;
    RoutedIsRun(mem, p, before, sys, ss, hs, |hs|);
    assert ss[..|hs| + 1] == ss && hs[..|hs|] == hs;
    ComputesOnce(Reads(mem), p, before, sys, ss, hs, |hs|);
    var both := Issued(Reads(mem), OrderA(p)) + Issued(Reads(mem), OrderB(p));
    assert before + Issued(Reads(mem), OrderA(p)) + Issued(Reads(mem), OrderB(p)) == before + both;
    Cancel(before, multiset(landed), both);
  }

  lemma BothInside(mem: Bytes, p: Setup, landed: seq<WriteReq>)
    requires Square(p) && multiset(landed) == Issued(Reads(mem), OrderA(p)) + Issued(Reads(mem), OrderB(p))
    ensures forall w :: w in landed ==> SRAM_BASE <= w.addr && w.addr + 4 <= SRAM_BASE + SRAM_BYTES
  {
    hide Writes, Transfer;
    forall w | w in landed
      ensures SRAM_BASE <= w.addr && w.addr + 4 <= SRAM_BASE + SRAM_BYTES
    {
      WhoseWrite(mem, p, landed, w);
    }
  }

  /** Every landed write belongs to one operand and stays in its region; every write of an operand has landed. */
  lemma WhoseWrite(mem: Bytes, p: Setup, landed: seq<WriteReq>, w: WriteReq)
    requires Square(p) && multiset(landed) == Issued(Reads(mem), OrderA(p)) + Issued(Reads(mem), OrderB(p))
    ensures var wa, wb := Writes(ConfigOf(OrderA(p)), mem), Writes(ConfigOf(OrderB(p)), mem);
            && (w in landed <==> w in wa || w in wb)
            && (w in wa ==> SRAM_BASE + p.aAddr <= w.addr && w.addr + 4 <= SRAM_BASE + p.aAddr + p.m * p.m)
            && (w in wb ==> SRAM_BASE + p.bAddr <= w.addr && w.addr + 4 <= SRAM_BASE + p.bAddr + p.m * p.m)
  {
    hide Transfer, OrderA, OrderB, ConfigOf;
    SquareSizes(p);
    SquareOrders(p);
    var wa, wb := Writes(ConfigOf(OrderA(p)), mem), Writes(ConfigOf(OrderB(p)), mem);
    assert w in landed <==> w in multiset(landed);
    assert (w in wa <==> w in multiset(wa)) && (w in wb <==> w in multiset(wb));
    if w in wa { OperandInside(mem, p.aHome, p.aAddr, p.m, w); }
    if w in wb { OperandInside(mem, p.bHome, p.bAddr, p.m, w); }
  }

  /** Element (r, c) of both operands is in the SRAM, in whatever order the words landed. */
  lemma OperandsArrive(mem: Bytes, p: Setup, landed: seq<WriteReq>, was: Bytes, r: nat, c: nat)
    requires Square(p) && r < p.m && c < p.m
    requires multiset(landed) == Issued(Reads(mem), OrderA(p)) + Issued(Reads(mem), OrderB(p))
    ensures ByteAfter(was, landed, SRAM_BASE + p.aAddr + r * p.m + c) == mem(p.aHome + r * p.m + c)
    ensures ByteAfter(was, landed, SRAM_BASE + p.bAddr + r * p.m + c) == mem(p.bHome + r * p.m + c)
  {
    hide ByteAfter, Writes, Issued, OrderA, OrderB, ConfigOf;
    SquareSizes(p);
    SquareOrders(p);
    var ca, cb := ConfigOf(OrderA(p)), ConfigOf(OrderB(p));
    OperandFits(p.aHome, p.aAddr, p.m);
    OperandFits(p.bHome, p.bAddr, p.m);
    InSquare(r, c, p.m);
    forall w
      ensures w in Writes(ca, mem) || w in Writes(cb, mem) ==> w in landed
      ensures w in landed && Covers(w, SRAM_BASE + p.aAddr + r * p.m + c) ==> w in Writes(ca, mem)
      ensures w in landed && Covers(w, SRAM_BASE + p.bAddr + r * p.m + c) ==> w in Writes(cb, mem)
    {
      WhoseWrite(mem, p, landed, w);
    }
    CopiedInAnyOrder(ca, mem, was, landed, r, c);
    CopiedInAnyOrder(cb, mem, was, landed, r, c);
  }

  lemma InSquare(r: nat, c: nat, s: nat)
    requires r < s && c < s
    ensures 0 <= r * s + c < s * s
  {
    Monotone(r + 1, s, s);
    Monotone(0, r, s);
  }

  /** The unpacking finds element (r, c) of the operand where the transfer has put it. */
  predicate Finds(mem: Bytes, was: Bytes, home: Word, addr: Word, s: nat, r: nat, c: nat)
    requires addr < SRAM_BYTES && Operand(home, addr, s).Valid()
  {
    var landed := Writes(Operand(home, addr, s), mem);
    ByteAfter(was, landed, SRAM_BASE + Accelerator.UnpackAt(addr, r, c, s)) == mem(home + r * s + c)
  }

  /** What is unpacked is what was transferred, for every memory, exactly when the rows are whole words
      long or there is only one. */
  lemma UnpackedWhereStored(home: Word, addr: Word, s: nat)
    requires 1 <= s && addr < SRAM_BYTES && addr % 4 == 0 && Fits(Operand(home, addr, s))
    ensures (forall mem: Bytes, was: Bytes, r: nat, c: nat :: r < s && c < s ==>
      Finds(mem, was, home, addr, s, r, c)) <==>
            s % 4 == 0 || s <= 1
  {
    hide ByteAfter, Writes;
    if s % 4 == 0 || s <= 1 {
      forall mem: Bytes, was: Bytes, r: nat, c: nat | r < s && c < s
        ensures Finds(mem, was, home, addr, s, r, c)
      {
        SamePitch(addr, r, c, s);
        StoredAt(mem, was, home, addr, s, r, c);
      }
    } else {
      Misplaced(home, addr, s);
    }
  }

  lemma SamePitch(addr: Word, r: nat, c: nat, s: nat)
    requires addr % 4 == 0 && r < s && (s % 4 == 0 || s <= 1)
    ensures Accelerator.UnpackAt(addr, r, c, s) == addr + r * s + c
  {
    if s % 4 == 0 { assert Accelerator.Pitch(s) == s; }
  }

  /** A transfer puts byte `b` of padded row `r` at row pitch `s`. */
  lemma StoredAt(mem: Bytes, was: Bytes, home: Word, addr: Word, s: nat, r: nat, b: nat)
    requires 1 <= s && addr < SRAM_BYTES && Fits(Operand(home, addr, s))
    requires r < s && b < 4 * Operand(home, addr, s).WordsPerRow()
    ensures ByteAfter(was, Writes(Operand(home, addr, s), mem), addr + SRAM_BASE + r * s + b) == mem(home + r * s + b)
  {
    hide ByteAfter, Writes;
    CopiedInAnyOrder(Operand(home, addr, s), mem, was, Writes(Operand(home, addr, s), mem), r, b);
  }

  /** Otherwise the second row is looked for behind its start. */
  lemma Misplaced(home: Word, addr: Word, s: nat)
    requires 1 < s && s % 4 != 0 && addr < SRAM_BYTES && addr % 4 == 0 && Fits(Operand(home, addr, s))
    ensures exists mem: Bytes, was: Bytes :: !Finds(mem, was, home, addr, s, 1, 0)
  {
    hide ByteAfter, Writes;
    var mem: Bytes := x => if x == home + s then 1 else 0;
    var gap := Accelerator.Pitch(s) - s;
    assert Accelerator.UnpackAt(addr, 1, 0, s) == addr + 1 * s + gap;
    StoredAt(mem, mem, home, addr, s, 1, gap);
    assert !Finds(mem, mem, home, addr, s, 1, 0);
  }

  // ---- Reads answered by the bus ----

  /** The data memory answers the bursts that are routed to it with its words; nothing is said about
      what other slaves answer. */
  predicate Answered(mem: Bytes, s: System, h: Happening) {
    h.Engine? && h.st.ReadResponse? && s.dma.asked.Some? && s.dma.asked.value != [] &&
    SlaveIndex(s.dma.asked.value[0].addr) == 0 ==>
      Faithful(Reads(mem), s.dma, h.st)
  }

  /** Nothing is assumed of a burst whose first address is a register or in the SRAM, of an empty one, or of any
      other step. */
  lemma OthersAnswerFreely(mem: Bytes, s: System, h: Happening)
    requires h.Engine? && h.st.ReadResponse? && s.dma.asked.Some? ==>
               s.dma.asked.value == [] ||
               0xF000 <= s.dma.asked.value[0].addr <= 0xF03F || 0x1_2000 <= s.dma.asked.value[0].addr <= 0x1_20F0 ||
               0x2_0000 <= s.dma.asked.value[0].addr <= 0x2_8000
    ensures Answered(mem, s, h)
  {}

  predicate Routed(mem: Bytes, p: Setup, ss: seq<System>, hs: seq<Happening>, i: nat)
    requires p.Valid() && i < |hs| && |ss| == |hs| + 1
  {
    CanHappen(ss[i], hs[i]) && Answered(mem, ss[i], hs[i]) && ss[i + 1] == After(ss[i], p, hs[i])
  }

  /** A run of accelerator, bus and engine from ENABLE, with `mem` in the data memory. */
  predicate IsRoutedRun(mem: Bytes, p: Setup, before: multiset<WriteReq>, s: System, ss: seq<System>,
                        hs: seq<Happening>) {
    && p.Valid() && Resting(before, s.dma) && Quiet(s.link) && s.starts == 0
    && |ss| == |hs| + 1 && ss[0] == Start(s, p)
    && forall i {:trigger Routed(mem, p, ss, hs, i)} :: 0 <= i < |hs| ==> Routed(mem, p, ss, hs, i)
  }

  /** What the engine asks for lies in the operand it has been told to fetch. */
  lemma AsksForOperand(m: Source, o: Order, home: Word, addr: Word, s: nat, all: multiset<WriteReq>, d: Dma)
    requires Working(m, o, all, d) && d.asked.Some? && addr < SRAM_BYTES && ConfigOf(o) == Operand(home, addr, s)
    requires 4 <= s <= 44 && s % 4 == 0 && home + s * s <= WORDS && addr + s * s <= SRAM_BYTES
    ensures d.asked.value != [] && home <= d.asked.value[0].addr < home + s * s
  {
    AsksWithin(m, d);
    var c := d.cfg;
    hide Working, ConfigOf, Config.SrcAddr, Config.TotalWords;
    OperandSource(home, addr, s, d.transferred + d.bufferIndex);
  }

  lemma AsksWithin(m: Source, d: Dma)
    requires Invariant(m, d) && d.asked.Some?
    ensures d.cfg.Valid() && d.cfg.WordsPerRow() > 0 && d.transferred + d.bufferIndex < d.cfg.TotalWords()
    ensures d.asked.value != [] && d.asked.value[0].addr == d.cfg.SrcAddr(d.transferred + d.bufferIndex)
  {
    hide Transfer;
  }

  lemma OperandSource(home: Word, addr: Word, s: nat, g: nat)
    requires 4 <= s <= 44 && s % 4 == 0 && home + s * s <= WORDS && addr + s * s <= SRAM_BYTES && addr < SRAM_BYTES
    requires g < Operand(home, addr, s).TotalWords()
    ensures Operand(home, addr, s).WordsPerRow() > 0
    ensures home <= Operand(home, addr, s).SrcAddr(g) < home + s * s
  {
    var c := Operand(home, addr, s);
    OperandFits(home, addr, s);
    Addresses(c, g);
    InPlace(c.Row(g), c.Col(g), s);
  }

  /** With the operands in data memory every answer is honest. */
  lemma AnswersAreHonest(mem: Bytes, p: Setup, before: multiset<WriteReq>, s: System, h: Happening)
    requires Square(p) && Good(Reads(mem), p, before, s) && CanHappen(s, h) && Answered(mem, s, h)
    ensures Honest(Reads(mem), s, h)
  {
    if h.Engine? && h.st.ReadResponse? {
      SquareSizes(p);
      SquareOrders(p);
      hide Faithful, Issued, OrderA, OrderB, ConfigOf, Working, Carrying;
      match s.accel {
        case ReadMatA => AsksForOperand(Reads(mem), OrderA(p), p.aHome, p.aAddr, p.m, before, s.dma);
        case ReadMatB =>
          AsksForOperand(Reads(mem), OrderB(p), p.bHome, p.bAddr, p.m, before + Issued(Reads(mem), OrderA(p)), s.dma);
        case Compute =>
      }
    }
  }

  lemma {:induction false} RoutedIsRun(mem: Bytes, p: Setup, before: multiset<WriteReq>, s: System, ss: seq<System>,
                                       hs: seq<Happening>, i: nat)
    requires Square(p) && IsRoutedRun(mem, p, before, s, ss, hs) && i <= |hs|
    ensures Handshake.IsRun(Reads(mem), p, before, s, ss[..i + 1], hs[..i])
  {
    hide Square, Resting, Quiet, Good, CanHappen, Answered, Honest, After, Start;
    SquareIsValid(p);
    if i > 0 {
      RoutedIsRun(mem, p, before, s, ss, hs, i - 1);
      RunGood(Reads(mem), p, before, s, ss[..i], hs[..i - 1], i - 1);
      assert Routed(mem, p, ss, hs, i - 1);
      AnswersAreHonest(mem, p, before, ss[i - 1], hs[i - 1]);
      var ts, us := ss[..i + 1], hs[..i];
      forall j | 0 <= j < |us|
        ensures Handshake.Linked(Reads(mem), p, ts, us, j)
      {
        if j < i - 1 { assert Handshake.Linked(Reads(mem), p, ss[..i], hs[..i - 1], j); }
      }
    }
  }

  lemma SquareIsValid(p: Setup)
    requires Square(p)
    ensures p.Valid()
  {}

  // ---- Bursts that reach the SRAM ----

  lemma {:induction false} StoreIsWrite(ps: seq<Packet>, i: nat, k: nat)
    requires i < |ps| && ps[i].WriteBurst? && k < |ps[i].stores|
    ensures ps[i].stores[k] in WritesOf(ps)
  {
    if i > 0 { StoreIsWrite(ps[1..], i - 1, k); }
  }

  /** Operands within the range taken for the SRAM: every burst of their words reaches it. */
  lemma LowOperandsReach(mem: Bytes, p: Setup, packets: seq<Packet>, i: nat)
    requires Square(p) && p.aAddr + p.m * p.m <= SRAM_WORDS && p.bAddr + p.m * p.m <= SRAM_WORDS
    requires multiset(WritesOf(packets)) == Issued(Reads(mem), OrderA(p)) + Issued(Reads(mem), OrderB(p))
    requires i < |packets| && packets[i].WriteBurst? && packets[i].stores != []
    ensures StartsInSram(packets[i])
  {
    hide WritesOf, Square, Issued, OrderA, OrderB, ConfigOf, Writes;
    StoreIsWrite(packets, i, 0);
    WhoseWrite(mem, p, WritesOf(packets), packets[i].stores[0]);
  }

  // ---- The whole ----

  /** End to end. The system has run from ENABLE to the start of the multiplication; the bursts it
      issued have reached the accelerator, each starting in the range taken for the SRAM, and their
      beats have run in some order. Then C is the product of the two square matrices in data memory,
      entry by entry, wrapped to 16 bits. */
  method Accelerate(acc: Accelerator, ghost mem: Bytes, p: Setup, ghost before: multiset<WriteReq>, ghost sys: System,
                    ghost ss: seq<System>, ghost hs: seq<Happening>, ghost was: Bytes,
                    packets: seq<Packet>, order: seq<WriteReq>, outside: (nat, nat) -> SystolicTile.Valid8)
    requires acc.Valid() && acc.Cleared() && acc.core.tileQ == [] && acc.scheduled == [] && acc.Mirrors(was)
    requires Square(p) && acc.aAddr == p.aAddr && acc.bAddr == p.bAddr
    requires acc.core.strideA == p.strideA && acc.core.strideB == p.strideB
    requires IsRoutedRun(mem, p, before, sys, ss, hs) && ss[|hs|].accel == Compute
    requires before + multiset(WritesOf(packets)) ==
               multiset(WritesOf(ss[|hs|].dma.sent)) + multiset(WritesOf(ss[|hs|].dma.queue))
    requires multiset(order) == multiset(WritesOf(packets)) && forall q :: q in packets ==> StartsInSram(q)
    modifies acc.sram, acc`scheduled, acc.core`tileQ, acc.core`now, acc.core`done, acc.core.aTile, acc.core.bTile
    modifies acc.core.tileResult, acc.core.aMatrix, acc.core.bMatrix, acc.core.cMatrix
    ensures acc.core.done
    ensures forall r, c :: 0 <= r < 64 && 0 <= c < 64 ==>
              acc.core.cMatrix[r, c] ==
              if r < p.m && c < p.m then MemoryProduct(mem, p.aHome, p.bHome, p.m, r, c, p.m) % 0x1_0000 else 0
    ensures forall r, c :: 0 <= r < 64 && 0 <= c < 64 && r < p.m && c < p.m ==>
              var exact := MemoryProduct(mem, p.aHome, p.bHome, p.m, r, c, p.m);
              && 0 <= acc.core.cMatrix[r, c] < 65536 && (exact - acc.core.cMatrix[r, c]) % 65536 == 0
              && (exact <= 65535 ==> acc.core.cMatrix[r, c] == exact)
  {
    hide IsRoutedRun, ByteAfter, WritesOf, MemoryProduct, Square, StartsInSram, Accelerator.Mirrors;
    SquareSizes(p);
    BothIssued(mem, p, before, sys, ss, hs, order);
    BothInside(mem, p, order);
    acc.Land(packets, order, was);
    OperandsHeld(acc, mem, p, order, was);
    acc.Multiply(mem, p.aHome, p.bHome, outside);
  }

  lemma HeldIs(acc: Accelerator, mem: Bytes, home: int, addr: Word, s: nat, r: nat, c: nat, now: Bytes)
    requires acc.Valid() && acc.Mirrors(now) && now(SRAM_BASE + addr + r * s + c) == mem(home + r * s + c)
    ensures acc.Held(mem, home, addr, s, r, c)
  {
    var at := addr + r * s + c;
    if 0 <= at < acc.sram.Length { assert acc.sram[at] == now(SRAM_BASE + at); }
  }

  lemma OperandsHeld(acc: Accelerator, mem: Bytes, p: Setup, landed: seq<WriteReq>, was: Bytes)
    requires acc.Valid() && Square(p) && acc.Mirrors(x => ByteAfter(was, landed, x))
    requires multiset(landed) == Issued(Reads(mem), OrderA(p)) + Issued(Reads(mem), OrderB(p))
    ensures acc.Brought(mem, p.aHome, p.aAddr, p.m) && acc.Brought(mem, p.bHome, p.bAddr, p.m)
  {
    hide ByteAfter, Square, Issued, Accelerator.Held, Accelerator.Mirrors;
    forall r: nat, c: nat | r < p.m && c < p.m
      ensures acc.Held(mem, p.aHome, p.aAddr, p.m, r, c) && acc.Held(mem, p.bHome, p.bAddr, p.m, r, c)
    {
      OperandsArrive(mem, p, landed, was, r, c);
      HeldIs(acc, mem, p.aHome, p.aAddr, p.m, r, c, x => ByteAfter(was, landed, x));
      HeldIs(acc, mem, p.bHome, p.bAddr, p.m, r, c, x => ByteAfter(was, landed, x));
    }
  }
}
