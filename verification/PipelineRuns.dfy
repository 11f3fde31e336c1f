/** The headline results, stated over whole runs written out as sequences of states. */
module PipelineRuns {
  import opened Words
  import opened Rv32Datapath
  import opened DataMemory
  import opened Pipeline
  import opened AsBuilt
  import opened Refinement
  import opened RefinementSteps
  import opened PipelineTheorems
  import opened PipelineTiming

  /** The program, the memory latency and the initial data memory of a run. */
  datatype Setup = Setup(prog: Program, latency: nat, m0: Bytes)

  predicate Clocked(u: Setup, cs: seq<Cpu>, t: nat)
    requires 0 < t < |cs|
  {
    cs[t] == Step(u.prog, u.latency, cs[t - 1])
  }

  /** `cs` are the states of the core from power-on, one per clock edge. */
  predicate IsCoreRun(u: Setup, cs: seq<Cpu>) {
    && |cs| > 0 && cs[0] == PowerOn(u.m0)
    && forall t {:trigger Clocked(u, cs, t)} :: 0 < t < |cs| ==> Clocked(u, cs, t)
  }

  predicate Tracked(u: Setup, cs: seq<Cpu>, fs: seq<Flight>, t: nat)
    requires 0 < t < |fs| == |cs|
  {
    fs[t] == Track(EdgeOf(u.latency, cs[t - 1]), fs[t - 1])
  }

  /** `fs` label the stages of `cs` with the instructions they hold. */
  predicate IsLabelling(u: Setup, cs: seq<Cpu>, fs: seq<Flight>) {
    && |fs| == |cs| > 0 && fs[0] == Grounded
    && forall t {:trigger Tracked(u, cs, fs, t)} :: 0 < t < |fs| ==> Tracked(u, cs, fs, t)
  }

  predicate Executed(u: Setup, ss: seq<Seq>, i: nat)
    requires 0 < i < |ss|
  {
    ss[i] == SeqStep(u.prog, ss[i - 1])
  }

  /** `ss` are the states of the sequential machine, one per instruction. */
  predicate IsSequentialRun(u: Setup, ss: seq<Seq>) {
    && |ss| > 0 && ss[0] == Boot(u.m0)
    && forall i {:trigger Executed(u, ss, i)} :: 0 < i < |ss| ==> Executed(u, ss, i)
  }

  lemma {:induction false} CoreRunIs(u: Setup, cs: seq<Cpu>, t: nat)
    requires IsCoreRun(u, cs) && t < |cs|
    ensures cs[t] == Run(u.prog, u.latency, u.m0, t)
  {
    hide Step, PowerOn;
    if t > 0 {
      assert Clocked(u, cs, t);
      CoreRunIs(u, cs, t - 1);
    }
  }

  lemma {:induction false} LabellingIs(u: Setup, cs: seq<Cpu>, fs: seq<Flight>, t: nat)
    requires IsCoreRun(u, cs) && IsLabelling(u, cs, fs) && t < |cs|
    ensures fs[t] == Labels(u.prog, u.latency, u.m0, t)
  {
    hide Step, PowerOn, EdgeOf, IsCoreRun, Run;
    if t > 0 {
      assert Tracked(u, cs, fs, t);
      CoreRunIs(u, cs, t - 1);
      LabellingIs(u, cs, fs, t - 1);
    }
  }

  lemma {:induction false} SequentialRunIs(u: Setup, ss: seq<Seq>, i: nat)
    requires IsSequentialRun(u, ss) && i < |ss|
    ensures ss[i] == At(u.prog, u.m0, i)
  {
    hide SeqStep, Boot;
    if i > 0 {
      assert Executed(u, ss, i);
      SequentialRunIs(u, ss, i - 1);
    }
  }

  /** Hcf stays low in every cycle before `t`. */
  predicate LowBefore(cs: seq<Cpu>, t: nat)
    requires t <= |cs|
  {
    forall v {:trigger cs[v]} :: 0 <= v < t ==> !HcfHigh(cs[v])
  }

  lemma LowIsRunning(u: Setup, cs: seq<Cpu>, t: nat)
    requires IsCoreRun(u, cs) && t < |cs| && LowBefore(cs, t)
    ensures Running(u.prog, u.latency, u.m0, t)
  {
    hide IsCoreRun, Run, HcfHigh;
    forall v: nat | v < t
      ensures !HcfHigh(Run(u.prog, u.latency, u.m0, v))
    {
      CoreRunIs(u, cs, v);
    }
  }

  /** Refinement. Take any program, initial data memory and memory latency of at least three, the
      run of the core and the run of the sequential machine. At every cycle up to the first with
      Hcf high, the registers are those of the sequential machine at the oldest instruction still
      in flight, the data memory that of the oldest that has not accessed it, and these are in
      order and at most four instructions apart. */
  lemma CoreRefinesSequential(u: Setup, cs: seq<Cpu>, fs: seq<Flight>, ss: seq<Seq>, t: nat)
    requires u.latency >= 3 && IsCoreRun(u, cs) && IsLabelling(u, cs, fs) && IsSequentialRun(u, ss)
    requires t < |cs| && LowBefore(cs, t) && fs[t].next < |ss|
    ensures FromWb(fs[t]) <= FromMem(fs[t]) <= AccessedBy(cs[t], fs[t]) <= fs[t].next <= FromWb(fs[t]) + 4
    ensures cs[t].regs == ss[FromWb(fs[t])].arch.regs
    ensures cs[t].dm.bytes == ss[AccessedBy(cs[t], fs[t])].arch.bytes
  {
    hide IsCoreRun, IsSequentialRun, LowBefore, Run, Labels, At, Running, IsMem;
    LowIsRunning(u, cs, t);
    CoreRunIs(u, cs, t);
    LabellingIs(u, cs, fs, t);
    Refines(u.prog, u.latency, u.m0, t);
    SequentialRunIs(u, ss, FromWb(fs[t]));
    SequentialRunIs(u, ss, AccessedBy(cs[t], fs[t]));
  }

  /** What execute holds at any such cycle is an instruction of the sequential run, with the
      operands it has there. */
  lemma ExecuteHoldsSequentialOperands(u: Setup, cs: seq<Cpu>, fs: seq<Flight>, ss: seq<Seq>, t: nat)
    requires u.latency >= 3 && IsCoreRun(u, cs) && IsLabelling(u, cs, fs) && IsSequentialRun(u, ss)
    requires t < |cs| && LowBefore(cs, t) && fs[t].exe.Instr? && fs[t].next < |ss|
    ensures fs[t].next == fs[t].exe.index + 1
    ensures SameOperands(cs[t].exe, Operands(u.prog, ss[fs[t].exe.index].arch))
  {
    hide IsCoreRun, IsSequentialRun, LowBefore, Run, Labels, At, Running, InMem, InWb, RegsAt, MemAt, SlotsAt, Front;
    hide Operands, SameOperands, Lost, Redirects;
    LowIsRunning(u, cs, t);
    CoreRunIs(u, cs, t);
    LabellingIs(u, cs, fs, t);
    InFlight(u.prog, u.latency, u.m0, t);
    SequentialRunIs(u, ss, fs[t].exe.index);
  }

  /** The sequential run `ss` reaches its first HCF at instruction `h`. */
  predicate ReachesHcf(u: Setup, ss: seq<Seq>, h: nat)
    requires h < |ss|
  {
    && IsHcf(Fetch(u.prog, ss[h].arch))
    && forall i {:trigger ss[i]} :: 0 <= i < h ==> !IsHcf(Fetch(u.prog, ss[i].arch))
  }

  /** The cycle the sequential machine foretells for its instruction in state `s` to be in
      write-back, when it makes no memory access. */
  function ForetoldCycle(u: Setup, s: Seq): nat
    requires u.latency >= 1
  {
    s.edges + Bubbles(Fetch(u.prog, s.arch), s.slots) + 3 + StallCycles(u.latency, s.accesses)
  }

  /** Halting. If the sequential run reaches its first HCF at `h`, then Hcf is low in every cycle
      before the foretold one and high in it, and in that cycle the registers and the data memory
      are those of the sequential machine at the HCF. */
  lemma CoreHaltsOnTime(u: Setup, cs: seq<Cpu>, ss: seq<Seq>, h: nat)
    requires u.latency >= 3 && IsCoreRun(u, cs) && IsSequentialRun(u, ss)
    requires h < |ss| && ReachesHcf(u, ss, h) && ForetoldCycle(u, ss[h]) < |cs|
    ensures var t := ForetoldCycle(u, ss[h]);
            && LowBefore(cs, t) && HcfHigh(cs[t])
            && cs[t].regs == ss[h].arch.regs
            && cs[t].dm.bytes == ss[h].arch.bytes
  {
    hide IsCoreRun, IsSequentialRun, Run, At, Bubbles, IsHcf, Fetch, HcfHigh, StallCycles;
    forall i: nat | i <= h
      ensures ss[i] == At(u.prog, u.m0, i)
    {
      SequentialRunIs(u, ss, i);
    }
    assert HaltsAt(u.prog, u.m0, h);
    Halts(u.prog, u.latency, u.m0, h);
    var t := WriteBackCycle(u.prog, u.m0, u.latency, h);
    OneStepTime(u.prog, u.m0, h);
    HcfIsNoAccess(u.prog, u.m0, h);
    assert t == ForetoldCycle(u, ss[h]);
    forall v: nat | v <= t
      ensures cs[v] == Run(u.prog, u.latency, u.m0, v)
    {
      CoreRunIs(u, cs, v);
    }
  }

  /** The foretold cycle is linear: at most seven cycles, plus six for each instruction and
      latency - 1 for each memory access before the HCF. */
  lemma HaltingIsLinear(u: Setup, ss: seq<Seq>, h: nat)
    requires u.latency >= 1 && IsSequentialRun(u, ss) && h < |ss|
    ensures ForetoldCycle(u, ss[h]) <= 7 + 6 * h + StallCycles(u.latency, ss[h].accesses)
    ensures ss[h].accesses <= h
  {
    hide IsSequentialRun, At, Bubbles, Fetch, StallCycles;
    SequentialRunIs(u, ss, h);
    HaltBound(u.prog, u.m0, u.latency, h);
  }

  // ---- After Hcf ----

  /** Where the pc and the decode stage stand one edge after Hcf has risen: a jump already in execute still
      redirects and empties decode, anything else leaves them. */
  predicate HaltedFrom(c: Cpu, n: Cpu) {
    && n.wb == c.wb && n.mem == c.mem && n.regs == c.regs[0 := 0]
    && n.pc == (if Flush(c) then Target(c.exe) else c.pc) && n.id == (if Flush(c) then NoId else c.id)
    && !Flush(n)
  }

  lemma HaltEdge(prog: Program, latency: nat, c: Cpu)
    requires HcfHigh(c)
    ensures HaltedFrom(c, Step(prog, latency, c))
  {
    hide KindOf, Overlaps, Target, BranchTaken, DmNext, Imm, LoadValue, StoreBytes, Rd;
    HcfWritesNothing(c.wb.inst);
    var n := Step(prog, latency, c);
    if n.exe == NoExe { NothingTaken(n); }
  }

  lemma HcfWritesNothing(i: Word)
    requires IsHcf(i)
    ensures !WritesRd(i)
  {}

  lemma NothingTaken(c: Cpu)
    requires c.exe == NoExe
    ensures !Flush(c)
  {}

  /** Once Hcf is high it stays high, and the core is frozen: at every later cycle write-back and the memory
      stage hold what they held, the registers are the same, and the pc and the decode stage are where one
      edge has left them. */
  lemma {:induction false} HaltsForGood(u: Setup, cs: seq<Cpu>, t: nat, v: nat)
    requires IsCoreRun(u, cs) && t < v < |cs| && HcfHigh(cs[t])
    ensures HcfHigh(cs[v]) && cs[v].wb == cs[t].wb && cs[v].mem == cs[t].mem && cs[v].regs == cs[t].regs
    ensures cs[v].pc == (if Flush(cs[t]) then Target(cs[t].exe) else cs[t].pc)
    ensures cs[v].id == if Flush(cs[t]) then NoId else cs[t].id
    decreases v - t
  {
    hide Step, PowerOn, Flush, Target;
    assert Clocked(u, cs, v) && Clocked(u, cs, t + 1);
    ZeroIsZero(u, cs, t);
    HaltEdge(u.prog, u.latency, cs[t]);
    if t + 1 < v {
      HaltsForGood(u, cs, t + 1, v);
    }
  }

  lemma {:induction false} ZeroIsZero(u: Setup, cs: seq<Cpu>, t: nat)
    requires IsCoreRun(u, cs) && t < |cs|
    ensures cs[t].regs[0] == 0
  {
    if t > 0 { assert Clocked(u, cs, t); }
  }
}
