/** The cycle in which Hcf rises, exactly. */
module PipelineTiming {
  import opened Words
  import opened Rv32Datapath
  import opened DataMemory
  import opened Pipeline
  import opened AsBuilt
  import opened Refinement
  import opened RefinementProof
  import opened RefinementSteps
  import opened PipelineTheorems

  /** Cycles lost to `n` loads and stores. */
  function StallCycles(latency: nat, n: nat): nat
    requires latency >= 1
  {
    if n == 0 then 0 else latency - 1 + StallCycles(latency, n - 1)
  }

  /** The edge, memory stalls left out, at whose end instruction `i` is in decode for the last time. */
  function IssueEdge(prog: Program, m0: Bytes, i: nat): nat {
    var s := At(prog, m0, i);
    s.edges + Bubbles(Fetch(prog, s.arch), s.slots)
  }

  /** The cycle in which instruction `i` is in write-back. */
  function WriteBackCycle(prog: Program, m0: Bytes, latency: nat, i: nat): nat
    requires latency >= 1
  {
    IssueEdge(prog, m0, i) + 3 + StallCycles(latency, At(prog, m0, i + 1).accesses)
  }

  predicate Timed(prog: Program, m0: Bytes, latency: nat, c: Cpu, f: Flight)
    requires latency >= 1
  {
    && f.stalls == StallCycles(latency, At(prog, m0, FromMem(f)).accesses) + c.dm.counter
    && (f.exe.Instr? ==> f.edges == IssueEdge(prog, m0, f.exe.index) + 1)
    && (f.mem.Instr? ==> f.edges == IssueEdge(prog, m0, f.mem.index) + 2)
    && (f.wb.Instr? ==> f.edges == IssueEdge(prog, m0, f.wb.index) + 3)
  }

  lemma OneStepTime(prog: Program, m0: Bytes, i: nat)
    ensures At(prog, m0, i + 1).accesses ==
              At(prog, m0, i).accesses + if IsMem(Fetch(prog, At(prog, m0, i).arch)) then 1 else 0
    ensures IssueEdge(prog, m0, i) < At(prog, m0, i + 1).edges <= IssueEdge(prog, m0, i) + 3
  {
    hide Lost, Settle, Bubbles, SlotsAfter, Redirects, Effect, IsMem, Imm, Rs1, Rs2;
  }

  /** Behind a lost jump comes no access that it would have made. */
  lemma FollowsAccesses(prog: Program, m0: Bytes, i: nat, j: nat)
    requires Follows(prog, m0, i, j)
    ensures At(prog, m0, j).accesses == At(prog, m0, i + 1).accesses
  {
    if j == i + 2 {
      OneStepTime(prog, m0, i + 1);
      KindFacts(Operands(prog, At(prog, m0, i + 1).arch));
      LostFacts(prog, At(prog, m0, i + 1));
    }
    hide At, Lost, IsMem, Taken, Operands;
  }

  lemma LostFacts(prog: Program, s: Seq)
    requires Lost(prog, s)
    ensures !IsMem(Fetch(prog, s.arch)) && !IsHcf(Fetch(prog, s.arch))
  {
    hide Settle, Target, BranchTaken, Imm, Rs1, Rs2;
  }

  lemma StepTimed(prog: Program, m0: Bytes, latency: nat, c: Cpu, f: Flight)
    requires latency >= 3 && Invariant(prog, m0, latency, c, f) && !HcfHigh(c)
    requires Timed(prog, m0, latency, c, f)
    ensures Timed(prog, m0, latency, Step(prog, latency, c), Track(EdgeOf(latency, c), f))
  {
    hide At, Operands, KindOf, Flush, StallDH, Step, Settle, Bubbles, Decoded, SameOperands, Follows, RegsAt, HcfHigh,
         Lost, Redirects, AluOut, LowAddr, Taken, Overlaps, StoreBytes, LoadValue, Fetch;
    StepByEdge(prog, latency, c);
    RestAfterEdge(prog, m0, latency, c, f);
    HoldsFacts(prog, m0, latency, c, f);
    if f.mem.Instr? {
      OneStepTime(prog, m0, f.mem.index);
      FollowsAccesses(prog, m0, f.mem.index, FromExe(f));
    } else {
      BubbleFacts(NoExe, 0);
    }
    if EdgeOf(latency, c) == Advance && f.fetched {
      NoFlushFacts(latency, c);
      IssueSlots(prog, m0, latency, c, f);
      FetchFacts(prog, m0, c, f);
    }
  }

  lemma FetchFacts(prog: Program, m0: Bytes, c: Cpu, f: Flight)
    requires Front(prog, m0, c, f) && f.fetched && !Flush(c)
    ensures Fetch(prog, At(prog, m0, f.next).arch) == c.id.inst
  {
    hide At, Flush;
  }

  lemma {:induction false} InFlightTimed(prog: Program, latency: nat, m0: Bytes, t: nat)
    requires latency >= 3 && Running(prog, latency, m0, t)
    ensures Timed(prog, m0, latency, Run(prog, latency, m0, t), Labels(prog, latency, m0, t))
  {
    hide Step, Invariant, HcfHigh, EdgeOf, Timed;
    if t == 0 {
      StartTimed(prog, latency, m0);
    } else {
      InFlightTimed(prog, latency, m0, t - 1);
      InFlight(prog, latency, m0, t - 1);
      StepTimed(prog, m0, latency, Run(prog, latency, m0, t - 1), Labels(prog, latency, m0, t - 1));
    }
  }

  lemma StartTimed(prog: Program, latency: nat, m0: Bytes)
    requires latency >= 3
    ensures Timed(prog, m0, latency, PowerOn(m0), Grounded)
  {}

  /** Every instruction that reaches write-back does so in the cycle the sequential machine's
      accounts foretell: one edge per instruction, the bubbles it waits for in decode, two lost
      edges per redirect (one if the jump is lost), and latency - 1 per load or store. */
  lemma WriteBackOnTime(prog: Program, latency: nat, m0: Bytes, t: nat)
    requires latency >= 3 && Running(prog, latency, m0, t)
    ensures var f := Labels(prog, latency, m0, t);
            f.wb.Instr? ==> t == WriteBackCycle(prog, m0, latency, f.wb.index)
  {
    hide Run, Labels, At, IsMem, Lost, InExe, InMem, InWb, Front, SlotsAt, StoreBytes, LoadValue, RegsAt, IssueEdge;
    hide Follows;
    InFlight(prog, latency, m0, t);
    InFlightTimed(prog, latency, m0, t);
    var f := Labels(prog, latency, m0, t);
    if f.wb.Instr? { FollowsAccesses(prog, m0, f.wb.index, FromMem(f)); }
  }

  // ---- Halting ----

  /** The sequential run reaches its first HCF at instruction `h`. */
  predicate HaltsAt(prog: Program, m0: Bytes, h: nat) {
    && IsHcf(Fetch(prog, At(prog, m0, h).arch))
    && forall i: nat :: i < h ==> !IsHcf(Fetch(prog, At(prog, m0, i).arch))
  }

  /** Nothing but HCF itself is followed past it. */
  lemma FollowsStops(prog: Program, m0: Bytes, h: nat, i: nat, j: nat)
    requires HaltsAt(prog, m0, h) && Follows(prog, m0, i, j) && i < h
    ensures j <= h
  {
    hide At, Lost, IsHcf, Fetch;
    if j == i + 2 { LostFacts(prog, At(prog, m0, i + 1)); }
  }

  /** Until Hcf rises, write-back has not passed HCF. */
  lemma {:induction false} NotPast(prog: Program, latency: nat, m0: Bytes, h: nat, t: nat)
    requires latency >= 3 && Running(prog, latency, m0, t) && HaltsAt(prog, m0, h)
    ensures FromWb(Labels(prog, latency, m0, t)) <= h
  {
    hide Step, HcfHigh, At, HaltsAt, Follows, Lost, Running;
    if t > 0 {
      assert Running(prog, latency, m0, t - 1) && !HcfHigh(Run(prog, latency, m0, t - 1))
        by { RunningBefore(prog, latency, m0, t); }
      NotPast(prog, latency, m0, h, t - 1);
      NotPastStep(prog, latency, m0, h, t - 1);
    }
  }

  lemma RunningBefore(prog: Program, latency: nat, m0: Bytes, t: nat)
    requires t > 0 && Running(prog, latency, m0, t)
    ensures Running(prog, latency, m0, t - 1) && !HcfHigh(Run(prog, latency, m0, t - 1))
  {
    hide Run, HcfHigh;
  }

  lemma NotPastStep(prog: Program, latency: nat, m0: Bytes, h: nat, t: nat)
    requires latency >= 3 && Running(prog, latency, m0, t) && HaltsAt(prog, m0, h)
    requires FromWb(Labels(prog, latency, m0, t)) <= h && !HcfHigh(Run(prog, latency, m0, t))
    ensures FromWb(Labels(prog, latency, m0, t + 1)) <= h
  {
    hide Run, Step, At, Follows, Lost, IsHcf, InExe, InMem, SlotsAt, Front, MemAt, RegsAt, Flush, StallDH, IsMem;
    hide KindOf, Running;
    InFlight(prog, latency, m0, t);
    var c, f := Run(prog, latency, m0, t), Labels(prog, latency, m0, t);
    HoldsFacts(prog, m0, latency, c, f);
    if f.wb.Instr? {
      assert f.wb.index != h;
      FollowsStops(prog, m0, h, f.wb.index, FromMem(f));
    }
  }

  lemma {:induction false} AccessesGrow(prog: Program, m0: Bytes, i: nat, j: nat)
    requires i <= j
    ensures At(prog, m0, i).accesses <= At(prog, m0, j).accesses
    decreases j - i
  {
    hide At;
    if i < j {
      OneStepTime(prog, m0, i);
      AccessesGrow(prog, m0, i + 1, j);
    }
  }

  lemma {:induction false} IssueEdgesGrow(prog: Program, m0: Bytes, i: nat, j: nat)
    requires i <= j
    ensures IssueEdge(prog, m0, i) <= IssueEdge(prog, m0, j)
    decreases j - i
  {
    hide At;
    if i < j {
      OneStepTime(prog, m0, i);
      IssueEdgesGrow(prog, m0, i + 1, j);
    }
  }

  lemma {:induction false} StallsGrow(latency: nat, a: nat, b: nat)
    requires latency >= 1 && a < b
    ensures StallCycles(latency, a) + latency - 1 <= StallCycles(latency, b)
  {
    if a + 1 < b {
      StallsGrow(latency, a, b - 1);
    }
  }

  /** The memory stalls so far do not exceed those of the instructions before `h`. */
  lemma StallsBefore(prog: Program, m0: Bytes, latency: nat, c: Cpu, f: Flight, h: nat)
    requires latency >= 3 && Invariant(prog, m0, latency, c, f) && Timed(prog, m0, latency, c, f)
    requires HaltsAt(prog, m0, h) && FromMem(f) <= h
    ensures f.stalls <= StallCycles(latency, At(prog, m0, h).accesses)
  {
    hide At, Follows, Lost, InExe, InWb, SlotsAt, Front, RegsAt, Flush, StallDH, KindOf, InOrder, LoadValue;
    hide StoreBytes, IssueEdge, HaltsAt;
    var m := FromMem(f);
    HoldsFacts(prog, m0, latency, c, f);
    if IsMem(c.mem.inst) {
      HcfIsNoAccess(prog, m0, h);
      BubbleFacts(NoExe, 0);
      assert f.mem.Instr? by { MemHolds(prog, m0, c, f); }
      OneStepTime(prog, m0, m);
      AccessesGrow(prog, m0, m + 1, h);
      StallsGrow(latency, At(prog, m0, m).accesses, At(prog, m0, h).accesses);
    } else {
      AccessesGrow(prog, m0, m, h);
      if At(prog, m0, m).accesses < At(prog, m0, h).accesses {
        StallsGrow(latency, At(prog, m0, m).accesses, At(prog, m0, h).accesses);
      }
    }
  }

  lemma MemHolds(prog: Program, m0: Bytes, c: Cpu, f: Flight)
    requires InOrder(prog, m0, c, f)
    ensures f.mem.Bubble? ==> c.mem.inst == 0
  {
    hide At, Follows;
  }

  lemma HcfIsNoAccess(prog: Program, m0: Bytes, h: nat)
    requires HaltsAt(prog, m0, h)
    ensures !IsMem(Fetch(prog, At(prog, m0, h).arch))
  {
    hide At;
  }

  /** While HCF has not reached write-back, the edges so far fall short of it. */
  lemma EdgesBefore(prog: Program, m0: Bytes, latency: nat, c: Cpu, f: Flight, h: nat)
    requires latency >= 3 && Invariant(prog, m0, latency, c, f) && Timed(prog, m0, latency, c, f)
    requires HaltsAt(prog, m0, h) && FromMem(f) <= h
    ensures f.edges < IssueEdge(prog, m0, h) + 3
  {
    hide At, Follows, Lost, InExe, InMem, InWb, MemAt, RegsAt, Flush, StallDH, KindOf, LoadValue, StoreBytes;
    hide HaltsAt, Fetch, Settle, Bubbles, View, Shift, StallCycles;
    if f.mem.Instr? && f.mem.index == h {
    } else {
      if f.mem.Instr? { FollowsStops(prog, m0, h, f.mem.index, FromExe(f)); }
      if f.exe.Instr? && f.exe.index == h {
      } else {
        IssueEdgesGrow(prog, m0, f.next, h);
        if f.fetched && !Flush(c) { FetchFacts(prog, m0, c, f); }
      }
    }
  }

  lemma NotYet(prog: Program, latency: nat, m0: Bytes, h: nat, t: nat)
    requires latency >= 3 && Running(prog, latency, m0, t) && HaltsAt(prog, m0, h)
    requires Labels(prog, latency, m0, t).wb != Instr(h)
    ensures t < WriteBackCycle(prog, m0, latency, h)
  {
    hide Run, Labels, At, Follows, Lost, HaltsAt, Invariant, Timed, Running, IssueEdge;
    NotPast(prog, latency, m0, h, t);
    InFlight(prog, latency, m0, t);
    InFlightTimed(prog, latency, m0, t);
    var c, f := Run(prog, latency, m0, t), Labels(prog, latency, m0, t);
    assert f.wb.Instr? ==> Follows(prog, m0, f.wb.index, FromMem(f)) by { WbFollows(prog, m0, latency, c, f); }
    if f.wb.Instr? {
      FollowsStops(prog, m0, h, f.wb.index, FromMem(f));
    }
    StallsBefore(prog, m0, latency, c, f, h);
    EdgesBefore(prog, m0, latency, c, f, h);
    OneStepTime(prog, m0, h);
    HcfIsNoAccess(prog, m0, h);
  }

  lemma WbFollows(prog: Program, m0: Bytes, latency: nat, c: Cpu, f: Flight)
    requires Invariant(prog, m0, latency, c, f)
    ensures f.wb.Instr? ==>
              Follows(prog, m0, f.wb.index, FromMem(f)) && c.wb.inst == Fetch(prog, At(prog, m0, f.wb.index).arch)
    ensures f.wb.Bubble? ==> c.wb.inst == 0
  {
    hide At, Follows, InExe, InMem, MemAt, SlotsAt, Front, RegsAt;
    HoldsFacts(prog, m0, latency, c, f);
  }

  /** A cycle with Hcf high, none before it, is the foretold one. */
  lemma HcfOnTime(prog: Program, latency: nat, m0: Bytes, h: nat, t: nat)
    requires latency >= 3 && Running(prog, latency, m0, t) && HaltsAt(prog, m0, h)
    requires HcfHigh(Run(prog, latency, m0, t))
    ensures t == WriteBackCycle(prog, m0, latency, h) && Labels(prog, latency, m0, t).wb == Instr(h)
  {
    hide Run, Labels, At, Follows, Lost, Invariant, Timed, Running, IssueEdge, IsHcf, WriteBackCycle, Fetch;
    NotPast(prog, latency, m0, h, t);
    InFlight(prog, latency, m0, t);
    WbFollows(prog, m0, latency, Run(prog, latency, m0, t), Labels(prog, latency, m0, t));
    BubbleFacts(NoExe, 0);
    WriteBackOnTime(prog, latency, m0, t);
  }

  lemma {:induction false} RunsUntil(prog: Program, latency: nat, m0: Bytes, h: nat, t: nat)
    requires latency >= 3 && HaltsAt(prog, m0, h) && t <= WriteBackCycle(prog, m0, latency, h)
    ensures Running(prog, latency, m0, t)
  {
    hide Run, HcfHigh, HaltsAt, WriteBackCycle;
    if t > 0 {
      RunsUntil(prog, latency, m0, h, t - 1);
      if HcfHigh(Run(prog, latency, m0, t - 1)) {
        HcfOnTime(prog, latency, m0, h, t - 1);
      }
    }
  }

  /** Halting: if the sequential run reaches its first HCF at instruction `h`, Hcf rises in exactly
      the foretold cycle, for the first time, with the registers and the data memory of the
      sequential run at that HCF. */
  lemma Halts(prog: Program, latency: nat, m0: Bytes, h: nat)
    requires latency >= 3 && HaltsAt(prog, m0, h)
    ensures var t := WriteBackCycle(prog, m0, latency, h);
            && HcfHigh(Run(prog, latency, m0, t)) && Running(prog, latency, m0, t)
            && Run(prog, latency, m0, t).regs == At(prog, m0, h).arch.regs
            && Run(prog, latency, m0, t).dm.bytes == At(prog, m0, h).arch.bytes
  {
    hide Run, Labels, At, Follows, Lost, Running, IssueEdge, WriteBackCycle, InExe, InMem, InWb, SlotsAt, Front;
    hide KindOf, StoreBytes, LoadValue;
    var t := WriteBackCycle(prog, m0, latency, h);
    RunsUntil(prog, latency, m0, h, t);
    InFlight(prog, latency, m0, t);
    var c, f := Run(prog, latency, m0, t), Labels(prog, latency, m0, t);
    if f.wb != Instr(h) { NotYet(prog, latency, m0, h, t); }
    WbFollows(prog, m0, latency, c, f);
    FollowsSame(prog, m0, h, FromMem(f));
    OneStep(prog, m0, h);
    HcfFacts(prog, m0, h);
  }

  lemma HcfFacts(prog: Program, m0: Bytes, h: nat)
    requires HaltsAt(prog, m0, h)
    ensures At(prog, m0, h + 1).arch.bytes == At(prog, m0, h).arch.bytes
  {
    hide At, Operands, Lost, Settle, Bubbles, SlotsAfter, Taken, StoreBytes, SeqStep;
    OneStep(prog, m0, h);
  }

  /** Each instruction costs at most six edges, so the halting cycle is linear in the number of
      instructions and of memory accesses. */
  lemma {:induction false} HaltBound(prog: Program, m0: Bytes, latency: nat, h: nat)
    requires latency >= 1
    ensures IssueEdge(prog, m0, h) <= 4 + 6 * h
    ensures At(prog, m0, h).accesses <= h
  {
    hide At, Fetch;
    AtMostThreeBubbles(Fetch(prog, At(prog, m0, h).arch), At(prog, m0, h).slots);
    if h > 0 {
      HaltBound(prog, m0, latency, h - 1);
      OneStepTime(prog, m0, h - 1);
    } else {
      BootFacts(prog, m0);
    }
  }

  lemma BootFacts(prog: Program, m0: Bytes)
    ensures At(prog, m0, 0).edges == 1 && At(prog, m0, 0).accesses == 0
  {}

  lemma {:induction false} AtMostThreeBubbles(i: Word, v: Slots)
    ensures Bubbles(i, v) <= Depth(v) <= 3
    decreases Depth(v)
  {
    hide Waits;
    if Waits(i, v) {
      WaitingDrains(i, v);
      AtMostThreeBubbles(i, Shift(v, 0));
    }
  }
}
