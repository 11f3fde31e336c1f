/** Every run of the pipeline, up to the first cycle Hcf is high, is a run of the sequential
    machine spread over the stages. */
module Refinement {
  import opened Words
  import opened Rv32Datapath
  import opened DataMemory
  import opened Pipeline
  import opened AsBuilt

  // ---- Bookkeeping: which sequential instruction sits where ----

  datatype Slot = Bubble | Instr(index: nat)

  /** `next` is the number of instructions that have entered execute, `fetched` says that decode
      holds instruction `next`; `edges` and `stalls` split the cycles so far into those that moved
      the pipeline and those lost to the data memory. */
  datatype Flight = Flight(next: nat, fetched: bool, exe: Slot, mem: Slot, wb: Slot, edges: nat, stalls: nat)

  const Grounded := Flight(0, false, Bubble, Bubble, Bubble, 0, 0)

  /** The five things a clock edge can do while Hcf is low. */
  datatype Edge = Drop | Redirect | Freeze | Wait | Advance

  function EdgeOf(latency: nat, c: Cpu): Edge {
    if Flush(c) then (if StallMA(latency, c) then Drop else Redirect)
    else if StallMA(latency, c) then Freeze
    else if StallDH(c) then Wait
    else Advance
  }

  /** What such an edge does to each part of the core. */
  predicate Moved(edge: Edge, prog: Program, latency: nat, c: Cpu, n: Cpu) {
    && n.regs == WriteReg(c.regs, c.wb.inst, WbValue(c.wb))
    && n.dm == DmNext(latency, c.dm, MemRequest(c.mem))
    && n.mem == (if edge.Drop? || edge.Freeze? then c.mem else Executed(c.exe))
    && n.wb == (if edge.Drop? || edge.Freeze? then NoWb else Accessed(c.mem, c.dm.data))
    && match edge
       case Drop | Redirect => n.exe == NoExe && n.id == NoId && n.pc == Target(c.exe)
       case Freeze => n.exe == c.exe && n.id == c.id && n.pc == c.pc
       case Wait => n.exe == NoExe && n.id == c.id && n.pc == c.pc
       case Advance => n.exe == Decoded(c.regs, c.id) && n.id == IdReg(prog(c.pc), c.pc) && n.pc == LowAddr(c.pc + 4)
  }

  lemma StepByEdge(prog: Program, latency: nat, c: Cpu)
    requires !HcfHigh(c)
    ensures Moved(EdgeOf(latency, c), prog, latency, c, Step(prog, latency, c))
  {
    hide HcfHigh, StallDH, StallMA, Flush, WriteReg, WbValue, DmNext, MemRequest, Executed, Accessed, Decoded;
    hide Target, LowAddr;
  }

  /** Moves the labels as that edge moves the stage registers. */
  function Track(edge: Edge, f: Flight): Flight {
    match edge
    case Drop => f.(fetched := false, exe := Bubble, wb := Bubble, stalls := f.stalls + 1)
    case Redirect => Flight(f.next, false, Bubble, f.exe, f.mem, f.edges + 1, f.stalls)
    case Freeze => f.(wb := Bubble, stalls := f.stalls + 1)
    case Wait => Flight(f.next, f.fetched, Bubble, f.exe, f.mem, f.edges + 1, f.stalls)
    case Advance =>
      if f.fetched then Flight(f.next + 1, true, Instr(f.next), f.exe, f.mem, f.edges + 1, f.stalls)
      else Flight(f.next, true, Bubble, f.exe, f.mem, f.edges + 1, f.stalls)
  }

  function Labels(prog: Program, latency: nat, bytes: Bytes, t: nat): Flight {
    if t == 0 then Grounded
    else Track(EdgeOf(latency, Run(prog, latency, bytes, t - 1)), Labels(prog, latency, bytes, t - 1))
  }

  /** The oldest instruction at or behind a stage, that is the next one to leave it. */
  function FromExe(f: Flight): nat { if f.exe.Instr? then f.exe.index else f.next }
  function FromMem(f: Flight): nat { if f.mem.Instr? then f.mem.index else FromExe(f) }
  function FromWb(f: Flight): nat { if f.wb.Instr? then f.wb.index else FromMem(f) }

  // ---- The invariant, one conjunct per concern ----

  /** `j` comes next behind `i` in the stages: the next instruction, or the one after a jump that
      was flushed out of execute. */
  predicate Follows(prog: Program, m0: Bytes, i: nat, j: nat) {
    j == i + 1 || (j == i + 2 && Lost(prog, At(prog, m0, i + 1)))
  }

  predicate InOrder(prog: Program, m0: Bytes, c: Cpu, f: Flight) {
    && (match f.exe case Bubble => c.exe.inst == 0 case Instr(e) => e + 1 == f.next && f.fetched)
    && (match f.mem case Bubble => c.mem.inst == 0
                    case Instr(m) => Follows(prog, m0, m, FromExe(f)) && (f.exe.Instr? ==> f.exe.index == m + 1))
    && (match f.wb case Bubble => c.wb.inst == 0 case Instr(w) => Follows(prog, m0, w, FromMem(f)))
  }

  /** `x` agrees with `y` on everything its instruction looks at. */
  predicate SameOperands(x: ExeReg, y: ExeReg) {
    && x.inst == y.inst && x.pc == y.pc && x.imm == y.imm
    && (UsesRs1(x.inst) ==> x.rs1 == y.rs1)
    && (UsesRs2(x.inst) ==> x.rs2 == y.rs2)
  }

  predicate InExe(prog: Program, m0: Bytes, c: Cpu, e: nat) {
    var s := At(prog, m0, e);
    && SameOperands(c.exe, Operands(prog, s.arch))
    && c.id.pc == LowAddr(c.exe.pc + 4)
    && (Redirects(Operands(prog, s.arch)) ==>
          && (Lost(prog, s) <==> IsMem(c.mem.inst))
          && c.dm.phase == Idle)
  }

  predicate InMem(prog: Program, m0: Bytes, c: Cpu, m: nat) {
    var s := At(prog, m0, m);
    var x := Operands(prog, s.arch);
    && !Lost(prog, s)
    && c.mem.inst == x.inst && c.mem.pc == x.pc
    && (WritesRd(x.inst) || IsMem(x.inst) ==> c.mem.alu == AluOut(x))
    && (IsStore(x.inst) ==> c.mem.wdata == x.rs2)
  }

  predicate InWb(prog: Program, m0: Bytes, c: Cpu, w: nat) {
    var s := At(prog, m0, w);
    var x := Operands(prog, s.arch);
    && !Lost(prog, s)
    && c.wb.inst == x.inst
    && (WritesRd(x.inst) ==> WbValue(c.wb) == DestValue(x, s.arch.bytes))
  }

  /** The fetch side: the pc chain leads to instruction `next`. */
  predicate Front(prog: Program, m0: Bytes, c: Cpu, f: Flight) {
    var pc := At(prog, m0, f.next).arch.pc;
    && (f.fetched ==> c.id.inst == prog(c.id.pc) && c.pc == LowAddr(c.id.pc + 4))
    && (!f.fetched ==> c.id == NoId && f.exe == Bubble && c.pc == pc)
    && (Flush(c) ==> Target(c.exe) == pc)
    && (!Flush(c) && f.fetched ==> c.id.pc == pc)
  }

  predicate RegsAt(prog: Program, m0: Bytes, c: Cpu, f: Flight) {
    c.regs == At(prog, m0, FromWb(f)).arch.regs
  }

  /** The data memory, its controller, and the request of the instruction in the memory stage. */
  predicate MemAt(prog: Program, m0: Bytes, latency: nat, c: Cpu, f: Flight) {
    var m := FromMem(f);
    var old_, new_ := At(prog, m0, m).arch.bytes, At(prog, m0, m + 1).arch.bytes;
    var d, q := c.dm, MemRequest(c.mem);
    if !IsMem(c.mem.inst) then AtRest(d) && d.bytes == old_
    else
      && (d.phase != Idle ==> f.wb == Bubble && d.length == q.length)
      && match d.phase
         case Idle => d.counter == 0 && d.bytes == old_
         case Reading => q.read && d.counter == 1 && d.readAddr == q.addr && d.bytes == old_
         case Writing => q.write && d.counter == 1 && d.writeAddr == q.addr && d.writeData == q.wdata && d.bytes == old_
         case Waiting => 2 <= d.counter < latency && d.bytes == new_ && (q.read ==>
           d.data == LoadValue(q.length, q.addr, old_))
  }

  /** What the three late stages hold, as the sequential machine accounts for it. */
  function View(c: Cpu): Slots {
    Slots(c.exe.inst, c.mem.inst, if IsMem(c.mem.inst) then 0 else c.wb.inst)
  }

  predicate SlotsAt(prog: Program, m0: Bytes, c: Cpu, f: Flight) {
    var s, v := At(prog, m0, f.next), View(c);
    if Flush(c) then
      if IsMem(v.m) then s.slots == Shift(v.(e := 0), 0) && s.edges == f.edges + 1
      else s.slots == Shift(Shift(v, 0), 0) && s.edges == f.edges + 2
    else if !f.fetched then s.slots == Shift(v, 0) && s.edges == f.edges + 1
    else
      && Settle(c.id.inst, s.slots) == Settle(c.id.inst, v)
      && s.edges + Bubbles(c.id.inst, s.slots) == f.edges + Bubbles(c.id.inst, v)
  }

  predicate Invariant(prog: Program, m0: Bytes, latency: nat, c: Cpu, f: Flight) {
    && InOrder(prog, m0, c, f)
    && (f.exe.Instr? ==> InExe(prog, m0, c, f.exe.index))
    && (f.mem.Instr? ==> InMem(prog, m0, c, f.mem.index))
    && (f.wb.Instr? ==> InWb(prog, m0, c, f.wb.index))
    && Front(prog, m0, c, f)
    && RegsAt(prog, m0, c, f)
    && MemAt(prog, m0, latency, c, f)
    && SlotsAt(prog, m0, c, f)
  }
}
