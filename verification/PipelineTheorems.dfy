/** The pipeline implements the sequential machine: over every run up to the first cycle Hcf is
    high, and down to the cycle in which Hcf rises. */
module PipelineTheorems {
  import opened Words
  import opened Rv32Datapath
  import opened DataMemory
  import opened Pipeline
  import opened AsBuilt
  import opened Refinement
  import opened RefinementProof
  import opened RefinementSteps

  lemma PowerOnInvariant(prog: Program, latency: nat, m0: Bytes)
    requires latency >= 3
    ensures Invariant(prog, m0, latency, PowerOn(m0), Grounded)
  {
    BubbleFacts(NoExe, 0);
  }

  lemma StepInvariant(prog: Program, m0: Bytes, latency: nat, c: Cpu, f: Flight)
    requires latency >= 3 && Invariant(prog, m0, latency, c, f) && !HcfHigh(c)
    ensures Invariant(prog, m0, latency, Step(prog, latency, c), Track(EdgeOf(latency, c), f))
  {
    hide At, Operands, KindOf, Flush, StallDH, Step, Settle, Bubbles, Decoded, SameOperands, Follows, RegsAt;
    hide HcfHigh, EdgeOf, Lost, Redirects, DmNext, AluOut, LowAddr, Taken, View, Overlaps;
    var n := Step(prog, latency, c);
    StepByEdge(prog, latency, c);
    if f.exe.Instr? { DecodedIs(At(prog, m0, f.exe.index).arch.regs, IdReg(0, 0)); }
    FlushIsRedirect(prog, m0, latency, c, f);
    RestAfterEdge(prog, m0, latency, c, f);
    HoldsFacts(prog, m0, latency, c, f);
    if EdgeOf(latency, c) == Advance && f.fetched {
      NoFlushFacts(latency, c);
      IssueOperands(prog, m0, c, f);
      IssueSlots(prog, m0, latency, c, f);
    }
    StepInOrder(prog, m0, latency, c, f, n);
    StepInExe(prog, m0, latency, c, f, n);
    StepInMem(prog, m0, latency, c, f, n);
    StepInWb(prog, m0, latency, c, f, n);
    StepFront(prog, m0, latency, c, f, n);
    StepRegs(prog, m0, latency, c, f, n);
    StepMem(prog, m0, latency, c, f, n);
    StepSlots(prog, m0, latency, c, f, n);
  }

  lemma NoFlushFacts(latency: nat, c: Cpu)
    requires EdgeOf(latency, c) == Advance
    ensures !Flush(c) && !StallMA(latency, c) && !StallDH(c)
  {
    hide Flush, StallMA, StallDH;
  }

  lemma HoldsFacts(prog: Program, m0: Bytes, latency: nat, c: Cpu, f: Flight)
    requires Invariant(prog, m0, latency, c, f)
    ensures Holds(prog, m0, f.exe, c.exe.inst) && Holds(prog, m0, f.mem, c.mem.inst) && Holds(prog, m0, f.wb, c.wb.inst)
    ensures StallMA(latency, c) ==> f.mem.Instr?
  {
    hide At, KindOf, Flush, StallDH, Settle, Bubbles, Follows, RegsAt, MemAt, Front, SlotsAt, Lost, Redirects;
    hide AluOut, Taken, Rs1, Rs2, Imm;
    BubbleFacts(NoExe, 0);
  }

  /** In-flight invariant, at every cycle up to the first with Hcf high: what sits in the stages
      are successive instructions of the sequential run with their sequential operands, results
      and addresses, the register file is that of the oldest instruction still in flight, and the
      data memory that of the oldest that has not accessed it. */
  lemma {:induction false} InFlight(prog: Program, latency: nat, m0: Bytes, t: nat)
    requires latency >= 3 && Running(prog, latency, m0, t)
    ensures Invariant(prog, m0, latency, Run(prog, latency, m0, t), Labels(prog, latency, m0, t))
    ensures t == Labels(prog, latency, m0, t).edges + Labels(prog, latency, m0, t).stalls
  {
    hide Step, Invariant, HcfHigh, EdgeOf, PowerOn;
    if t == 0 {
      PowerOnInvariant(prog, latency, m0);
    } else {
      InFlight(prog, latency, m0, t - 1);
      StepInvariant(prog, m0, latency, Run(prog, latency, m0, t - 1), Labels(prog, latency, m0, t - 1));
    }
  }

  /** Instructions whose memory access has taken effect. */
  function AccessedBy(c: Cpu, f: Flight): nat {
    if IsMem(c.mem.inst) && c.dm.phase == Waiting then FromMem(f) + 1 else FromMem(f)
  }

  /** Refinement: at every cycle up to the first with Hcf high, the architectural registers and the
      data memory are those of the sequential run at the instructions reached by write-back and by
      the memory stage, at most four behind the one about to issue. */
  lemma Refines(prog: Program, latency: nat, m0: Bytes, t: nat)
    requires latency >= 3 && Running(prog, latency, m0, t)
    ensures var c, f := Run(prog, latency, m0, t), Labels(prog, latency, m0, t);
            && c.regs == At(prog, m0, FromWb(f)).arch.regs
            && c.dm.bytes == At(prog, m0, AccessedBy(c, f)).arch.bytes
            && FromWb(f) <= FromMem(f) <= AccessedBy(c, f) <= f.next <= FromWb(f) + 4
  {
    hide Run, Labels, At, IsMem, Lost, InExe, InMem, InWb, Front, SlotsAt, StoreBytes, LoadValue;
    InFlight(prog, latency, m0, t);
    var c, f := Run(prog, latency, m0, t), Labels(prog, latency, m0, t);
    HoldsFacts(prog, m0, latency, c, f);
    BubbleFacts(NoExe, 0);
  }
}
