/** One clock edge keeps every conjunct of the invariant. */
module RefinementSteps {
  import opened Words
  import opened Rv32Datapath
  import opened DataMemory
  import opened Pipeline
  import opened AsBuilt
  import opened Refinement
  import opened RefinementProof

  /** What a flush means: it comes from the instruction in execute, is exactly a sequential
      redirect, and meets a memory stall exactly when the sequential machine loses the jump. */
  predicate FlushKnown(prog: Program, m0: Bytes, latency: nat, c: Cpu, f: Flight) {
    && (Flush(c) ==> f.exe.Instr?)
    && (f.exe.Instr? ==>
          var s := At(prog, m0, f.exe.index);
          && (Flush(c) <==> Redirects(Operands(prog, s.arch)))
          && (Lost(prog, s) <==> Flush(c) && StallMA(latency, c)))
  }

  lemma FlushIsRedirect(prog: Program, m0: Bytes, latency: nat, c: Cpu, f: Flight)
    requires latency >= 3
    requires f.exe.Bubble? ==> c.exe.inst == 0
    requires f.exe.Instr? ==> InExe(prog, m0, c, f.exe.index)
    requires IsMem(c.mem.inst) && c.dm.phase == Idle ==> c.dm.counter == 0
    ensures FlushKnown(prog, m0, latency, c, f)
  {
    if f.exe.Instr? {
      OperandFacts(c.exe, Operands(prog, At(prog, m0, f.exe.index).arch));
    } else {
      BubbleFacts(c.exe, 0);
    }
    hide IsMem, Settle, Operands, Taken, AluOut, At, UsesRs1, UsesRs2, WritesRd;
  }

  lemma StepInOrder(prog: Program, m0: Bytes, latency: nat, c: Cpu, f: Flight, n: Cpu)
    requires InOrder(prog, m0, c, f) && FlushKnown(prog, m0, latency, c, f)
    requires Moved(EdgeOf(latency, c), prog, latency, c, n)
    requires !f.fetched ==> c.id == NoId && f.exe == Bubble
    requires StallMA(latency, c) ==> f.mem.Instr?
    ensures InOrder(prog, m0, n, Track(EdgeOf(latency, c), f))
  {
    hide Operands, AluOut, At, Lost, WriteReg, WbValue, DmNext, Redirects, IsMem, Flush, StallMA, StallDH, Imm;
    hide LowAddr, Target, MemRequest, Rs1, Rs2;
  }

  /** Instruction `i` and what follows from it. */
  lemma OneStep(prog: Program, m0: Bytes, i: nat)
    ensures var s, t := At(prog, m0, i), At(prog, m0, i + 1);
            var x := Operands(prog, s.arch);
            && x.inst == prog(s.arch.pc) && x.pc == s.arch.pc
            && t == SeqStep(prog, s)
            && t.arch.pc == (if Taken(x) then Target(x) else LowAddr(x.pc + 4))
            && (!Lost(prog, s) ==> t.arch.regs == WriteReg(s.arch.regs, x.inst, DestValue(x, s.arch.bytes)))
            && t.arch.bytes == StoreEffect(x, s.arch.bytes)
  {
    hide Lost, Settle, Bubbles, SlotsAfter, EdgesAfter, Taken, Target, LowAddr, WriteReg, DestValue, StoreEffect;
    hide Imm, Rs1, Rs2;
  }

  /** `inst` does not write register `r`. */
  predicate Spares(inst: Word, r: nat) { WritesRd(inst) && Rd(inst) != 0 ==> Rd(inst) != r }

  predicate Holds(prog: Program, m0: Bytes, slot: Slot, inst: Word) {
    slot.Instr? ==> inst == Fetch(prog, At(prog, m0, slot.index).arch)
  }

  /** Without a hazard, decode reads the register value the sequential machine sees. */
  lemma RegisterRead(prog: Program, m0: Bytes, c: Cpu, f: Flight, r: nat)
    requires InOrder(prog, m0, c, f) && RegsAt(prog, m0, c, f) && r < 32
    requires Holds(prog, m0, f.exe, c.exe.inst) && Holds(prog, m0, f.mem, c.mem.inst)
    requires Holds(prog, m0, f.wb, c.wb.inst)
    requires Spares(c.exe.inst, r) && Spares(c.mem.inst, r) && Spares(c.wb.inst, r)
    ensures c.regs[r] == At(prog, m0, f.next).arch.regs[r]
  {
    hide At, WritesRd, Rd, Follows, Fetch;
    if f.wb.Instr? {
      Unwritten(prog, m0, f.wb.index, r);
      FollowsSame(prog, m0, f.wb.index, FromMem(f));
    }
    if f.mem.Instr? {
      Unwritten(prog, m0, f.mem.index, r);
      FollowsSame(prog, m0, f.mem.index, FromExe(f));
    }
    if f.exe.Instr? {
      Unwritten(prog, m0, f.exe.index, r);
    }
  }

  /** Only an edge without a memory stall moves the memory stage, and it leaves the controller
      at rest, the bytes as they were and, behind a load or store, nothing in write-back. */
  predicate RestKnown(latency: nat, c: Cpu, f: Flight) {
    !StallMA(latency, c) ==>
      && AtRest(DmNext(latency, c.dm, MemRequest(c.mem)))
      && DmNext(latency, c.dm, MemRequest(c.mem)).bytes == c.dm.bytes
      && (IsMem(c.mem.inst) ==> c.dm.phase == Waiting && c.wb.inst == 0)
  }

  lemma RestAfterEdge(prog: Program, m0: Bytes, latency: nat, c: Cpu, f: Flight)
    requires latency >= 3 && MemAt(prog, m0, latency, c, f)
    requires f.wb == Bubble ==> c.wb.inst == 0
    ensures RestKnown(latency, c, f)
  {
    hide At, LoadValue, StoreBytes, LowAddr, Funct3;
  }

  /** What issues from decode has read its operands as the sequential machine has them. */
  lemma IssueOperands(prog: Program, m0: Bytes, c: Cpu, f: Flight)
    requires InOrder(prog, m0, c, f) && RegsAt(prog, m0, c, f)
    requires Holds(prog, m0, f.exe, c.exe.inst) && Holds(prog, m0, f.mem, c.mem.inst)
    requires Holds(prog, m0, f.wb, c.wb.inst)
    requires !StallDH(c)
    requires c.id.pc == At(prog, m0, f.next).arch.pc && c.id.inst == prog(c.id.pc)
    ensures SameOperands(Decoded(c.regs, c.id), Operands(prog, At(prog, m0, f.next).arch))
  {
    hide At, WritesRd, Rd, Rs1, Rs2, Imm, UsesRs1, UsesRs2, InOrder, RegsAt, Holds;
    var i := c.id.inst;
    if UsesRs1(i) { RegisterRead(prog, m0, c, f, Rs1(i)); }
    if UsesRs2(i) { RegisterRead(prog, m0, c, f, Rs2(i)); }
  }

  /** The slots the issuing instruction finds are the ones the sequential machine settles on. */
  lemma IssueSlots(prog: Program, m0: Bytes, latency: nat, c: Cpu, f: Flight)
    requires SlotsAt(prog, m0, c, f) && RestKnown(latency, c, f)
    requires EdgeOf(latency, c) == Advance && f.fetched
    ensures Settle(c.id.inst, At(prog, m0, f.next).slots) == View(c) && Bubbles(c.id.inst, View(c)) == 0
    ensures View(c) == Slots(c.exe.inst, c.mem.inst, c.wb.inst)
  {
    hide At, Overlaps, IsMem, Flush;
  }

  lemma StepInExe(prog: Program, m0: Bytes, latency: nat, c: Cpu, f: Flight, n: Cpu)
    requires FlushKnown(prog, m0, latency, c, f) && RestKnown(latency, c, f)
    requires Moved(EdgeOf(latency, c), prog, latency, c, n)
    requires f.exe.Instr? ==> InExe(prog, m0, c, f.exe.index)
    requires EdgeOf(latency, c) == Advance && f.fetched ==>
               && SameOperands(Decoded(c.regs, c.id), Operands(prog, At(prog, m0, f.next).arch))
               && Settle(c.id.inst, At(prog, m0, f.next).slots).e == c.exe.inst
               && c.pc == LowAddr(c.id.pc + 4)
    ensures var f' := Track(EdgeOf(latency, c), f);
            f'.exe.Instr? ==> InExe(prog, m0, n, f'.exe.index)
  {
    hide At, Operands, Settle, Target, LowAddr, AluOut, WriteReg, WbValue, DmNext, MemRequest, IsMem, Flush, StallMA;
    hide StallDH, Imm, Rs1, Rs2, UsesRs1, UsesRs2, Taken;
  }

  lemma StepInMem(prog: Program, m0: Bytes, latency: nat, c: Cpu, f: Flight, n: Cpu)
    requires FlushKnown(prog, m0, latency, c, f)
    requires Moved(EdgeOf(latency, c), prog, latency, c, n)
    requires f.exe.Instr? ==> InExe(prog, m0, c, f.exe.index)
    requires f.mem.Instr? ==> InMem(prog, m0, c, f.mem.index)
    ensures var f' := Track(EdgeOf(latency, c), f);
            f'.mem.Instr? ==> InMem(prog, m0, n, f'.mem.index)
  {
    hide At, Operands, Target, LowAddr, AluOut, WriteReg, WbValue, DmNext, MemRequest, IsMem, IsStore, WritesRd;
    hide Flush, StallMA, StallDH, Imm, Rs1, Rs2, UsesRs1, UsesRs2, Taken, Redirects;
    if f.exe.Instr? { OperandFacts(c.exe, Operands(prog, At(prog, m0, f.exe.index).arch)); }
  }

  lemma StepInWb(prog: Program, m0: Bytes, latency: nat, c: Cpu, f: Flight, n: Cpu)
    requires RestKnown(latency, c, f) && MemAt(prog, m0, latency, c, f)
    requires Moved(EdgeOf(latency, c), prog, latency, c, n)
    requires f.mem.Instr? ==> InMem(prog, m0, c, f.mem.index)
    ensures var f' := Track(EdgeOf(latency, c), f);
            f'.wb.Instr? ==> InWb(prog, m0, n, f'.wb.index)
  {
    hide At, Operands, Target, LowAddr, AluOut, WriteReg, DmNext, KindOf, Flush, StallDH, StoreBytes, LoadValue,
         Imm, Rs1, Rs2, UsesRs1, UsesRs2, Taken, Funct3;
  }

  /** The next pc, as the issuing instruction determines it. */
  lemma NextPcFacts(prog: Program, m0: Bytes, i: nat, x: ExeReg)
    requires SameOperands(x, Operands(prog, At(prog, m0, i).arch))
    ensures At(prog, m0, i + 1).arch.pc == if Taken(x) then Target(x) else LowAddr(x.pc + 4)
  {
    hide At, Operands, LowAddr, AluOut, SeqStep, StoreEffect, DestValue, Lost, Taken, UsesRs1, UsesRs2, IsMem;
    hide WritesRd, WriteReg;
    OneStep(prog, m0, i);
    OperandFacts(x, Operands(prog, At(prog, m0, i).arch));
  }

  lemma StepFront(prog: Program, m0: Bytes, latency: nat, c: Cpu, f: Flight, n: Cpu)
    requires FlushKnown(prog, m0, latency, c, f) && Front(prog, m0, c, f)
    requires Moved(EdgeOf(latency, c), prog, latency, c, n)
    requires EdgeOf(latency, c) == Advance && f.fetched ==>
               SameOperands(Decoded(c.regs, c.id), Operands(prog, At(prog, m0, f.next).arch))
    ensures Front(prog, m0, n, Track(EdgeOf(latency, c), f))
  {
    hide At, Operands, LowAddr, AluOut, WriteReg, WbValue, DmNext, MemRequest, IsMem, Overlaps, SameOperands, Imm;
    hide Rs1, Rs2, StallMA, Redirects, FlushKnown, Taken, Target, Executed, Accessed;
    BubbleFacts(NoExe, c.exe.inst); BubbleFacts(NoExe, c.mem.inst); BubbleFacts(NoExe, c.wb.inst);
    if n.exe.inst == 0 { BubbleFacts(n.exe, 0); }
    if EdgeOf(latency, c) == Advance && f.fetched {
      NextPcFacts(prog, m0, f.next, n.exe);
    }
  }

  lemma StepRegs(prog: Program, m0: Bytes, latency: nat, c: Cpu, f: Flight, n: Cpu)
    requires InOrder(prog, m0, c, f) && RegsAt(prog, m0, c, f)
    requires Moved(EdgeOf(latency, c), prog, latency, c, n)
    requires f.wb.Instr? ==> InWb(prog, m0, c, f.wb.index)
    requires StallMA(latency, c) ==> f.mem.Instr?
    ensures RegsAt(prog, m0, n, Track(EdgeOf(latency, c), f))
  {
    hide At, Operands, Target, LowAddr, AluOut, DmNext, MemRequest, IsMem, Flush, StallMA, StallDH, SeqStep;
    hide StoreEffect, DestValue, WbValue,
         Imm, Rs1, Rs2, Rd, Lost, Taken, WritesRd, Follows, Decoded, Executed, Accessed;
    ZeroStaysZero(prog, m0, FromWb(f));
    BubbleFacts(NoExe, 0);
    if f.wb.Instr? {
      OneStep(prog, m0, f.wb.index);
      FollowsSame(prog, m0, f.wb.index, FromMem(f));
    }
  }

  /** When the memory stage lets go of its instruction, the bytes are those the next one finds. */
  lemma BytesHandedOn(prog: Program, m0: Bytes, latency: nat, c: Cpu, f: Flight)
    requires InOrder(prog, m0, c, f) && MemAt(prog, m0, latency, c, f) && RestKnown(latency, c, f)
    requires f.mem.Instr? ==> InMem(prog, m0, c, f.mem.index)
    requires !StallMA(latency, c)
    ensures c.dm.bytes == At(prog, m0, FromExe(f)).arch.bytes
  {
    hide At, Operands, LowAddr, AluOut, DmNext, MemRequest, SeqStep, DestValue, Lost, WriteReg, StoreBytes;
    hide LoadValue, Funct3, KindOf, Taken, Target, Follows;
    if f.mem.Instr? {
      OneStep(prog, m0, f.mem.index);
      FollowsSame(prog, m0, f.mem.index, FromExe(f));
    }
    BubbleFacts(NoExe, 0);
  }

  /** A memory stall advances the request by one edge. */
  lemma StepStalledMem(prog: Program, m0: Bytes, latency: nat, c: Cpu, f: Flight, n: Cpu, f': Flight)
    requires latency >= 3 && MemAt(prog, m0, latency, c, f)
    requires f.mem.Instr? && InMem(prog, m0, c, f.mem.index) && f'.mem == f.mem && f'.wb == Bubble
    requires StallMA(latency, c)
    requires n.mem == c.mem && n.dm == DmNext(latency, c.dm, MemRequest(c.mem))
    ensures MemAt(prog, m0, latency, n, f')
  {
    hide At, Operands, LowAddr, AluOut, SeqStep, DestValue, Lost, WriteReg, StoreBytes, LoadValue, Funct3, Taken;
    hide Target, KindOf;
    OneStep(prog, m0, f.mem.index);
    KindFacts(Operands(prog, At(prog, m0, f.mem.index).arch));
  }

  lemma StepMem(prog: Program, m0: Bytes, latency: nat, c: Cpu, f: Flight, n: Cpu)
    requires latency >= 3 && InOrder(prog, m0, c, f) && MemAt(prog, m0, latency, c, f) && RestKnown(latency, c, f)
    requires Moved(EdgeOf(latency, c), prog, latency, c, n)
    requires f.mem.Instr? ==> InMem(prog, m0, c, f.mem.index)
    requires StallMA(latency, c) ==> f.mem.Instr?
    ensures MemAt(prog, m0, latency, n, Track(EdgeOf(latency, c), f))
  {
    hide At, InMem, Executed, Decoded, Accessed, WriteReg, WbValue, StoreBytes, LoadValue, KindOf, DmNext;
    hide MemRequest, Flush;
    if StallMA(latency, c) {
      StepStalledMem(prog, m0, latency, c, f, n, Track(EdgeOf(latency, c), f));
    } else {
      BytesHandedOn(prog, m0, latency, c, f);
    }
  }

  lemma ViewShifts(latency: nat, c: Cpu, prog: Program, n: Cpu)
    requires Moved(EdgeOf(latency, c), prog, latency, c, n)
    ensures !StallMA(latency, c) ==> View(n) == Shift(View(c), n.exe.inst)
    ensures StallMA(latency, c) ==> View(n) == View(c).(e := n.exe.inst)
  {
    hide Decoded, WriteReg, WbValue, DmNext, MemRequest, KindOf, Flush, StallDH, Target, LowAddr, AluOut;
    BubbleFacts(NoExe, 0);
  }

  /** Issue: the sequential machine accounts for the same slots and edges. */
  lemma IssueAccounts(prog: Program, m0: Bytes, latency: nat, c: Cpu, f: Flight, n: Cpu)
    requires RestKnown(latency, c, f) && SlotsAt(prog, m0, c, f)
    requires Moved(Advance, prog, latency, c, n) && EdgeOf(latency, c) == Advance && f.fetched
    requires SameOperands(n.exe, Operands(prog, At(prog, m0, f.next).arch))
    requires c.pc == LowAddr(c.id.pc + 4)
    ensures SlotsAt(prog, m0, n, Track(Advance, f))
  {
    hide At, Decoded, WriteReg, WbValue, DmNext, MemRequest, KindOf, StallDH, LowAddr, AluOut, Operands, Taken, Lost;
    hide Settle, Bubbles, Effect, UsesRs1, UsesRs2, Executed, Accessed;
    OneStep(prog, m0, f.next);
    ViewShifts(latency, c, prog, n);
    IssueSlots(prog, m0, latency, c, f);
    OperandFacts(n.exe, Operands(prog, At(prog, m0, f.next).arch));
    assert n.exe.inst == c.id.inst && n.exe.pc == c.id.pc
      by { assert n.exe == Decoded(c.regs, c.id); DecodedIs(c.regs, c.id); }
    assert Flush(n) <==> Redirects(Operands(prog, At(prog, m0, f.next).arch));
  }

  lemma DecodedIs(regs: Regs, d: IdReg)
    ensures Decoded(regs, d).inst == d.inst && Decoded(regs, d).pc == d.pc
  {}

  lemma StepSlots(prog: Program, m0: Bytes, latency: nat, c: Cpu, f: Flight, n: Cpu)
    requires FlushKnown(prog, m0, latency, c, f) && RestKnown(latency, c, f) && Front(prog, m0, c, f)
    requires SlotsAt(prog, m0, c, f)
    requires Moved(EdgeOf(latency, c), prog, latency, c, n)
    requires f.exe.Instr? ==> InExe(prog, m0, c, f.exe.index)
    requires EdgeOf(latency, c) == Advance && f.fetched ==>
               SameOperands(Decoded(c.regs, c.id), Operands(prog, At(prog, m0, f.next).arch))
    ensures SlotsAt(prog, m0, n, Track(EdgeOf(latency, c), f))
  {
    hide At, WriteReg, WbValue, DmNext, MemRequest, KindOf, LowAddr, AluOut, Operands, Taken, Lost, Overlaps;
    hide SameOperands, IsMem, Executed, Accessed, Target, Decoded;
    ViewShifts(latency, c, prog, n);
    BubbleFacts(NoExe, c.exe.inst); BubbleFacts(NoExe, c.mem.inst); BubbleFacts(NoExe, c.wb.inst);
    DecodedIs(c.regs, c.id);
    if n.exe.inst == 0 { BubbleFacts(n.exe, 0); }
    if EdgeOf(latency, c) == Advance && f.fetched {
      IssueAccounts(prog, m0, latency, c, f, n);
    }
  }
}
