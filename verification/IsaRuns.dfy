/** The core against the RV32I run, cycle by cycle: exactly when it follows it. */
module IsaRuns {
  import opened Words
  import opened Rv32Datapath
  import opened DataMemory
  import opened Pipeline
  import opened AsBuilt
  import opened Refinement
  import opened RefinementProof
  import opened RefinementSteps
  import PipelineTheorems
  import opened PipelineTiming
  import opened PipelineRuns
  import opened Conformance
  import opened LinkLoss
  import Isa = Rv32i

  // ---- Write-back passes every instruction that is not dropped ----

  /** What has left write-back grows one by one, but for dropped jumps. */
  lemma FromWbMoves(prog: Program, m0: Bytes, latency: nat, c: Cpu, f: Flight)
    requires Invariant(prog, m0, latency, c, f)
    ensures var w, n := FromWb(f), FromWb(Track(EdgeOf(latency, c), f));
            n == w || Follows(prog, m0, w, n)
  {
    hide At, Lost, InExe, InMem, InWb, Front, RegsAt, MemAt, SlotsAt, Flush, StallDH, Ready, KindOf;
    if StallMA(latency, c) && f.mem.Bubble? {
      MemHolds(prog, m0, c, f);
      BubbleIsNoAccess();
    }
  }

  lemma BubbleIsNoAccess()
    ensures !IsMem(0)
  {}

  lemma {:induction false} Visits(prog: Program, latency: nat, m0: Bytes, t: nat, j: nat) returns (v: nat)
    requires latency >= 3 && Running(prog, latency, m0, t) && j <= FromWb(Labels(prog, latency, m0, t))
    requires !Lost(prog, At(prog, m0, j))
    ensures v <= t && FromWb(Labels(prog, latency, m0, v)) == j
  {
    hide At, Lost, Invariant, EdgeOf, Run;
    if t == 0 || FromWb(Labels(prog, latency, m0, t)) == j {
      v := t;
    } else {
      RunningBefore(prog, latency, m0, t);
      PipelineTheorems.InFlight(prog, latency, m0, t - 1);
      FromWbMoves(prog, m0, latency, Run(prog, latency, m0, t - 1), Labels(prog, latency, m0, t - 1));
      v := Visits(prog, latency, m0, t - 1, j);
    }
  }

  /** Write-back never goes back. */
  lemma {:induction false} FromWbGrows(prog: Program, latency: nat, m0: Bytes, v: nat, t: nat)
    requires latency >= 3 && Running(prog, latency, m0, t) && v <= t
    ensures FromWb(Labels(prog, latency, m0, v)) <= FromWb(Labels(prog, latency, m0, t))
  {
    hide At, Lost, Invariant, EdgeOf, Run;
    if v < t {
      RunningBefore(prog, latency, m0, t);
      FromWbGrows(prog, latency, m0, v, t - 1);
      PipelineTheorems.InFlight(prog, latency, m0, t - 1);
      FromWbMoves(prog, m0, latency, Run(prog, latency, m0, t - 1), Labels(prog, latency, m0, t - 1));
    }
  }

  // ---- The RV32I run and the sequential machine ----

  /** They agree as long as no link is lost. */
  lemma {:induction false} NoLossFollowsIsa(u: Setup, hs: seq<Isa.Hart>, i: nat)
    requires IsIsaRun(u, hs) && i < |hs|
    requires forall j: nat :: j < i ==> !LosesLink(u.prog, u.m0, j)
    ensures HartOf(At(u.prog, u.m0, i).arch) == hs[i]
  {
    hide At, Isa.Execute, Supported, Effect, Operands, LosesLink;
    if i == 0 {
      AtZero(u.prog, u.m0);
    } else {
      NoLossFollowsIsa(u, hs, i - 1);
      assert IsaStep(u, hs, i) && !LosesLink(u.prog, u.m0, i - 1);
      ZeroStaysZero(u.prog, u.m0, i - 1);
      KeptLinkStep(u.prog, u.m0, i);
      InstructionConforms(u.prog, At(u.prog, u.m0, i - 1).arch);
    }
  }

  lemma KeptLinkStep(prog: Program, m0: Bytes, i: nat)
    requires i > 0 && !LosesLink(prog, m0, i - 1)
    ensures var a := At(prog, m0, i - 1).arch; At(prog, m0, i).arch == Effect(Operands(prog, a), a, false)
  {
    hide At, LinkLost, Effect, Operands;
    ZeroStaysZero(prog, m0, i - 1);
    EffectExact(prog, At(prog, m0, i - 1));
    OneStep(prog, m0, i - 1);
  }

  /** A lost link leaves a register behind the RV32I run. */
  lemma LossShows(prog: Program, s: Seq)
    requires s.arch.regs[0] == 0 && LinkLost(prog, s)
    ensures SeqStep(prog, s).arch.regs != Effect(Operands(prog, s.arch), s.arch, false).regs
  {
    hide Settle, Bubbles, SlotsAfter, EdgesAfter, LoadValue, StoreEffect, Target, KindOf, Imm, AluOut, BranchTaken, Rd;
    var x := Operands(prog, s.arch);
    var v := WriteReg(s.arch.regs, x.inst, DestValue(x, s.arch.bytes));
    JumpDest(x, s.arch.bytes);
    assert v[Rd(x.inst)] == LowAddr(x.pc + 4);
  }

  /** The first lost link of those before `n`. */
  lemma {:induction false} FirstLoss(prog: Program, m0: Bytes, n: nat) returns (i: nat)
    requires exists k: nat :: k < n && LosesLink(prog, m0, k)
    ensures i < n && LosesLink(prog, m0, i) && forall j: nat :: j < i ==> !LosesLink(prog, m0, j)
  {
    hide LosesLink;
    var k: nat :| k < n && LosesLink(prog, m0, k);
    if exists j: nat :: j < k && LosesLink(prog, m0, j) {
      i := FirstLoss(prog, m0, k);
    } else {
      i := k;
    }
  }

  /** The instruction behind a lost jump is not lost itself. */
  lemma NotLostBehind(prog: Program, m0: Bytes, i: nat)
    requires LosesLink(prog, m0, i)
    ensures !Lost(prog, At(prog, m0, i + 1))
  {
    hide At, Lost, Operands;
    LostExactly(prog, m0, i + 1);
    LostFacts(prog, At(prog, m0, i));
  }

  // ---- Exactly ----

  /** At cycle `v` the registers are those of the RV32I run at the instruction write-back has reached. */
  predicate OnTrack(cs: seq<Cpu>, fs: seq<Flight>, hs: seq<Isa.Hart>, v: nat)
    requires v < |cs| && v < |fs|
  {
    FromWb(fs[v]) < |hs| && cs[v].regs == hs[FromWb(fs[v])].regs
  }

  /** The registers at a cycle are the sequential machine's. */
  lemma RegsAtCycle(u: Setup, cs: seq<Cpu>, fs: seq<Flight>, v: nat)
    requires u.latency >= 3 && IsCoreRun(u, cs) && IsLabelling(u, cs, fs) && v < |cs| && LowBefore(cs, v)
    ensures Running(u.prog, u.latency, u.m0, v) && fs[v] == Labels(u.prog, u.latency, u.m0, v)
    ensures cs[v].regs == At(u.prog, u.m0, FromWb(fs[v])).arch.regs
  {
    hide Run, At, LowBefore, Running, IsMem;
    LowIsRunning(u, cs, v);
    CoreRunIs(u, cs, v);
    LabellingIs(u, cs, fs, v);
    PipelineTheorems.Refines(u.prog, u.latency, u.m0, v);
  }

  lemma LowEarlier(cs: seq<Cpu>, v: nat, t: nat)
    requires v <= t < |cs| && LowBefore(cs, t)
    ensures LowBefore(cs, v)
  {}

  /** For a supported run: the core's registers are those of the RV32I run at every cycle up to `t` if
      and only if no instruction that write-back has passed by then lost its link. */
  lemma FollowsIsaExactly(u: Setup, cs: seq<Cpu>, fs: seq<Flight>, hs: seq<Isa.Hart>, t: nat)
    requires u.latency >= 3 && IsCoreRun(u, cs) && IsLabelling(u, cs, fs) && IsIsaRun(u, hs)
    requires t < |cs| && LowBefore(cs, t) && FromWb(fs[t]) < |hs|
    ensures (forall v :: 0 <= v <= t ==> OnTrack(cs, fs, hs, v)) <==>
            (forall i: nat :: i < FromWb(fs[t]) ==> !LosesLink(u.prog, u.m0, i))
  {
    hide IsCoreRun, IsIsaRun, LowBefore, LosesLink, At, Labels, Running;
    RegsAtCycle(u, cs, fs, t);
    if forall i: nat :: i < FromWb(fs[t]) ==> !LosesLink(u.prog, u.m0, i) {
      forall v | 0 <= v <= t
        ensures OnTrack(cs, fs, hs, v)
      {
        LowEarlier(cs, v, t);
        RegsAtCycle(u, cs, fs, v);
        FromWbGrows(u.prog, u.latency, u.m0, v, t);
        NoLossFollowsIsa(u, hs, FromWb(fs[v]));
      }
    } else {
      var i := FirstLoss(u.prog, u.m0, FromWb(fs[t]));
      var v := LossSeen(u, cs, fs, hs, t, i);
    }
  }

  /** The first lost link is seen at the cycle that reaches the next instruction. */
  lemma LossSeen(u: Setup, cs: seq<Cpu>, fs: seq<Flight>, hs: seq<Isa.Hart>, t: nat, i: nat) returns (v: nat)
    requires u.latency >= 3 && IsCoreRun(u, cs) && IsLabelling(u, cs, fs) && IsIsaRun(u, hs)
    requires t < |cs| && LowBefore(cs, t) && i < FromWb(fs[t]) < |hs|
    requires LosesLink(u.prog, u.m0, i) && forall j: nat :: j < i ==> !LosesLink(u.prog, u.m0, j)
    ensures v <= t && !OnTrack(cs, fs, hs, v)
  {
    hide IsCoreRun, LowBefore, LinkLost, At, Labels, Running, IsLabelling, Isa.Execute, Supported, Effect, Operands;
    hide Lost;
    RegsAtCycle(u, cs, fs, t);
    NotLostBehind(u.prog, u.m0, i);
    v := Visits(u.prog, u.latency, u.m0, t, i + 1);
    LowEarlier(cs, v, t);
    RegsAtCycle(u, cs, fs, v);
    NoLossFollowsIsa(u, hs, i);
    assert IsaStep(u, hs, i + 1);
    ZeroStaysZero(u.prog, u.m0, i);
    InstructionConforms(u.prog, At(u.prog, u.m0, i).arch);
    LossShows(u.prog, At(u.prog, u.m0, i));
    OneStep(u.prog, u.m0, i);
  }

  /** As long as nothing issued has lost its link, the data memory follows too. */
  lemma FollowsIsaUnlessLost(u: Setup, cs: seq<Cpu>, fs: seq<Flight>, hs: seq<Isa.Hart>, t: nat)
    requires u.latency >= 3 && IsCoreRun(u, cs) && IsLabelling(u, cs, fs) && IsIsaRun(u, hs)
    requires t < |cs| && LowBefore(cs, t) && fs[t].next < |hs|
    requires forall i: nat :: i < fs[t].next ==> !LosesLink(u.prog, u.m0, i)
    ensures FromWb(fs[t]) <= PipelineTheorems.AccessedBy(cs[t], fs[t]) <= fs[t].next
    ensures cs[t].regs == hs[FromWb(fs[t])].regs
    ensures cs[t].dm.bytes == hs[PipelineTheorems.AccessedBy(cs[t], fs[t])].bytes
  {
    hide IsIsaRun, Run, At, LowBefore, IsMem, LinkLost;
    LowIsRunning(u, cs, t);
    CoreRunIs(u, cs, t);
    LabellingIs(u, cs, fs, t);
    PipelineTheorems.Refines(u.prog, u.latency, u.m0, t);
    NoLossFollowsIsa(u, hs, FromWb(fs[t]));
    NoLossFollowsIsa(u, hs, PipelineTheorems.AccessedBy(cs[t], fs[t]));
  }
}
