/** The one way the core departs from sequential execution: a link lost under a memory stall.
    When it happens, exactly; and what follows for programs in which it does not. */
module LinkLoss {
  import opened Words
  import opened Rv32Datapath
  import opened DataMemory
  import opened Pipeline
  import opened AsBuilt
  import opened Refinement
  import opened RefinementProof
  import opened RefinementSteps
  import PipelineTheorems
  import opened PipelineTiming
  import opened PipelineRuns
  import opened Conformance
  import Isa = Rv32i

  /** The same datapath with no jump losing anything. */
  function Intended(prog: Program, m0: Bytes, i: nat): Arch {
    if i == 0 then Boot(m0).arch
    else
      var a := Intended(prog, m0, i - 1);
      Effect(Operands(prog, a), a, false)
  }

  /** The jump about to execute is lost and its link register does not happen to hold the link. */
  predicate LinkLost(prog: Program, s: Seq) {
    var i := Fetch(prog, s.arch);
    Lost(prog, s) && WritesRd(i) && Rd(i) != 0 && s.arch.regs[Rd(i)] != LowAddr(s.arch.pc + 4)
  }

  lemma EffectExact(prog: Program, s: Seq)
    requires s.arch.regs[0] == 0
    ensures SeqStep(prog, s).arch == Effect(Operands(prog, s.arch), s.arch, false) <==> !LinkLost(prog, s)
  {
    hide Settle, Bubbles, SlotsAfter, EdgesAfter, LoadValue, StoreEffect, Target, KindOf, Imm, AluOut, BranchTaken, Rd;
    var x := Operands(prog, s.arch);
    if Lost(prog, s) {
      var v := WriteReg(s.arch.regs, x.inst, DestValue(x, s.arch.bytes));
      if WritesRd(x.inst) {
        JumpDest(x, s.arch.bytes);
        assert v[Rd(x.inst)] == if Rd(x.inst) == 0 then 0 else LowAddr(x.pc + 4);
        assert s.arch.regs[Rd(x.inst)] == LowAddr(x.pc + 4) ==> v == s.arch.regs;
      } else {
        assert v == s.arch.regs;
      }
    }
  }

  lemma JumpDest(x: ExeReg, m: Bytes)
    requires Taken(x) && WritesRd(x.inst)
    ensures DestValue(x, m) == LowAddr(x.pc + 4)
  {
    hide BranchTaken;
  }

  /** The core's sequential machine is where the intended run is at instruction `i`. */
  predicate AsIntended(prog: Program, m0: Bytes, i: nat) { At(prog, m0, i).arch == Intended(prog, m0, i) }

  predicate LosesLink(prog: Program, m0: Bytes, i: nat) { LinkLost(prog, At(prog, m0, i)) }

  /** The core's sequential machine follows the intended run up to instruction `n` if and only if
      no link is lost before it. */
  lemma {:induction false} RunsAgreeExactly(prog: Program, m0: Bytes, n: nat)
    ensures (forall i: nat :: i <= n ==> AsIntended(prog, m0, i)) <==>
            (forall i: nat :: i < n ==> !LosesLink(prog, m0, i))
  {
    hide AsIntended, LosesLink;
    if n == 0 {
      IntendedZero(prog, m0);
    } else {
      RunsAgreeExactly(prog, m0, n - 1);
      if AsIntended(prog, m0, n - 1) { StepAgreesExactly(prog, m0, n); }
    }
  }

  lemma IntendedZero(prog: Program, m0: Bytes)
    ensures AsIntended(prog, m0, 0)
  {}

  lemma StepAgreesExactly(prog: Program, m0: Bytes, n: nat)
    requires n > 0 && AsIntended(prog, m0, n - 1)
    ensures AsIntended(prog, m0, n) <==> !LosesLink(prog, m0, n - 1)
  {
    hide At, LinkLost, Effect, Operands;
    ZeroStaysZero(prog, m0, n - 1);
    EffectExact(prog, At(prog, m0, n - 1));
    OneStep(prog, m0, n - 1);
  }

  lemma AtZero(prog: Program, m0: Bytes)
    ensures At(prog, m0, 0) == Boot(m0)
  {}

  /** A jump is lost if and only if it redirects, the instruction before it is a load or store, and
      no hazard holds it in decode. */
  lemma LostExactly(prog: Program, m0: Bytes, i: nat)
    ensures var s := At(prog, m0, i);
            var inst := Fetch(prog, s.arch);
            Lost(prog, s) <==>
              && Redirects(Operands(prog, s.arch))
              && i > 0 && IsMem(Fetch(prog, At(prog, m0, i - 1).arch))
              && !Waits(inst, s.slots)
  {
    hide At, KindOf, Overlaps, Redirects;
    var s := At(prog, m0, i);
    BubbleFacts(NoExe, 0);
    if i > 0 {
      OneStep(prog, m0, i - 1);
      AheadIs(prog, At(prog, m0, i - 1));
    } else {
      AtZero(prog, m0);
    }
    if Waits(Fetch(prog, s.arch), s.slots) {
      SettledBehindBubble(Fetch(prog, s.arch), Shift(s.slots, 0));
    }
  }

  /** The same, told of a run of the sequential machine. */
  lemma DroppedExactly(u: Setup, ss: seq<Seq>, i: nat)
    requires IsSequentialRun(u, ss) && i < |ss|
    ensures var inst := Fetch(u.prog, ss[i].arch);
            Lost(u.prog, ss[i]) <==>
              && Redirects(Operands(u.prog, ss[i].arch))
              && i > 0 && IsMem(Fetch(u.prog, ss[i - 1].arch))
              && !Waits(inst, ss[i].slots)
  {
    hide Lost, Redirects, Operands, Waits, At;
    SequentialRunIs(u, ss, i);
    if i > 0 { SequentialRunIs(u, ss, i - 1); }
    LostExactly(u.prog, u.m0, i);
  }

  /** The next instruction finds a load or store in execute exactly if it follows one. */
  lemma AheadIs(prog: Program, s: Seq)
    ensures IsMem(SeqStep(prog, s).slots.e) <==> IsMem(Fetch(prog, s.arch))
  {
    hide Lost, Effect, Settle, Bubbles, EdgesAfter, AluOut, Imm, Rs1, Rs2;
    KindFacts(Operands(prog, s.arch));
    BubbleFacts(NoExe, 0);
  }

  lemma {:induction false} SettledBehindBubble(i: Word, v: Slots)
    requires v.e == 0
    ensures Settle(i, v).e == 0
    decreases Depth(v)
  {
    hide Waits;
    if Waits(i, v) {
      WaitingDrains(i, v);
      SettledBehindBubble(i, Shift(v, 0));
    }
  }

  /** JAL reads no register, so nothing holds it back: directly behind a load or store, a
      redirecting JAL is always lost. */
  lemma JalBehindAccessIsLost(prog: Program, m0: Bytes, i: nat)
    requires i > 0 && IsMem(Fetch(prog, At(prog, m0, i - 1).arch))
    requires KindOf(Fetch(prog, At(prog, m0, i).arch)).Jal? && Redirects(Operands(prog, At(prog, m0, i).arch))
    ensures Lost(prog, At(prog, m0, i))
  {
    hide At, Redirects, Lost, Operands, Rd, Rs1, Rs2;
    LostExactly(prog, m0, i);
  }

  /** SW x0, 0(x0), then JAL x1, 8, then HCF everywhere. */
  function StoreThenCall(): Program {
    (pc: Addr) => if pc == 0 then 0x0000_2023 else if pc == 4 then 0x0080_00EF else 0x0000_000B
  }

  lemma CallFacts(x: ExeReg)
    requires x.inst == 0x0080_00EF && x.pc == 4 && x.imm == Imm(x.inst)
    ensures KindOf(x.inst) == Jal && Rd(x.inst) == 1 && Redirects(x)
  {
    CallWord();
    hide Imm, KindOf, Rd;
    assert AluOut(x) == 12;
  }

  lemma CallWord()
    ensures Imm(0x0080_00EF) == 8 && KindOf(0x0080_00EF) == Jal && Rd(0x0080_00EF) == 1
  {
    hide ImmI, ImmS, ImmB, ImmU;
    assert Bit31(0x0080_00EF) == 0;
    assert 0x0080_00EF / 0x1000 % 0x100 == 0 && 0x0080_00EF / 0x10_0000 % 2 == 0;
    assert 0x0080_00EF / 0x20_0000 % 0x400 == 4;
    assert ImmJ(0x0080_00EF) == 8;
  }

  lemma StoreFacts(x: ExeReg)
    requires x.inst == 0x0000_2023
    ensures KindOf(x.inst) == Store && !Taken(x) && !WritesRd(x.inst)
  {}

  /** Whatever the initial memory, that call loses its link. */
  lemma LinkLossHappens(m0: Bytes)
    ensures LinkLost(StoreThenCall(), At(StoreThenCall(), m0, 1))
  {
    hide At, StoreBytes, LoadValue, Settle, Bubbles, SlotsAfter, EdgesAfter, SeqStep, Redirects, Taken, Lost, Imm;
    hide KindOf, Rd, Rs1, Rs2;
    var prog := StoreThenCall();
    var s0, s1 := At(prog, m0, 0), At(prog, m0, 1);
    AtZero(prog, m0);
    OneStep(prog, m0, 0);
    StoreFacts(Operands(prog, s0.arch));
    if Lost(prog, s0) { LostFacts(prog, s0); }
    assert s1.arch.pc == 4 && s1.arch.regs == s0.arch.regs;
    CallFacts(Operands(prog, s1.arch));
    JalBehindAccessIsLost(prog, m0, 1);
  }

  // ---- Programs that lose no link run as the ISA manual says ----

  /** `hs` are the states of an RV32I hart from reset, one per instruction, every instruction
      supported. */
  predicate IsIsaRun(u: Setup, hs: seq<Isa.Hart>) {
    && |hs| > 0 && hs[0] == Isa.Hart(0, seq(32, _ => 0), u.m0)
    && forall i {:trigger IsaStep(u, hs, i)} :: 0 < i < |hs| ==> IsaStep(u, hs, i)
  }

  predicate IsaStep(u: Setup, hs: seq<Isa.Hart>, i: nat)
    requires 0 < i < |hs|
  {
    var h := hs[i - 1];
    0 <= h.pc < ADDRS && Supported(u.prog(h.pc), h) && hs[i] == Isa.Execute(u.prog(h.pc), h)
  }

  function InstAt(u: Setup, h: Isa.Hart): Word {
    if 0 <= h.pc < ADDRS then u.prog(h.pc) else 0
  }

  /** Directly behind a load or store, `i` jumps away from its successor and writes a link. */
  predicate ExposedLink(u: Setup, hs: seq<Isa.Hart>, i: nat)
    requires 0 < i < |hs|
  {
    var before, inst := InstAt(u, hs[i - 1]), InstAt(u, hs[i]);
    && (Isa.Major(before) == 0x03 || Isa.Major(before) == 0x23)
    && (Isa.Major(inst) == 0x6F || Isa.Major(inst) == 0x67)
    && Isa.FieldRd(inst) != 0
    && Isa.NextPc(inst, hs[i]) != hs[i].pc + 4
  }

  lemma {:induction false} SequentialFollowsIsa(u: Setup, hs: seq<Isa.Hart>, i: nat)
    requires IsIsaRun(u, hs) && i < |hs|
    requires forall j {:trigger ExposedLink(u, hs, j)} :: 0 < j < i ==> !ExposedLink(u, hs, j)
    ensures HartOf(At(u.prog, u.m0, i).arch) == hs[i]
  {
    hide At, Isa.Execute, Supported, ExposedLink, Effect, Operands, LinkLost;
    if i == 0 {
      AtZero(u.prog, u.m0);
    } else {
      SequentialFollowsIsa(u, hs, i - 1);
      assert IsaStep(u, hs, i);
      if i > 1 { SequentialFollowsIsa(u, hs, i - 2); assert IsaStep(u, hs, i - 1); }
      var s := At(u.prog, u.m0, i - 1);
      ZeroStaysZero(u.prog, u.m0, i - 1);
      if LinkLost(u.prog, s) { ExposedIfLost(u, hs, i - 1); }
      EffectExact(u.prog, s);
      OneStep(u.prog, u.m0, i - 1);
      InstructionConforms(u.prog, s.arch);
    }
  }

  lemma ExposedIfLost(u: Setup, hs: seq<Isa.Hart>, i: nat)
    requires 0 <= i < |hs| && LinkLost(u.prog, At(u.prog, u.m0, i))
    requires HartOf(At(u.prog, u.m0, i).arch) == hs[i] && Supported(Fetch(u.prog, At(u.prog, u.m0, i).arch), hs[i])
    requires i > 0 ==> HartOf(At(u.prog, u.m0, i - 1).arch) == hs[i - 1]
    ensures i > 0 && ExposedLink(u, hs, i)
  {
    hide At, Lost, Isa.NextPc, Supported, Target, Rs1, Rs2, Imm, BranchTaken;
    LostExactly(u.prog, u.m0, i);
    NextPcConforms(u.prog, At(u.prog, u.m0, i).arch);
    SupportedJump(Fetch(u.prog, At(u.prog, u.m0, i).arch), hs[i]);
  }

  /** An exposed link is lost exactly if no hazard holds the jump in decode and the register does not hold the
      link already; and no other link is. */
  lemma ExposedExactly(u: Setup, hs: seq<Isa.Hart>, i: nat)
    requires 0 < i < |hs| && Supported(InstAt(u, hs[i]), hs[i])
    requires HartOf(At(u.prog, u.m0, i).arch) == hs[i] && HartOf(At(u.prog, u.m0, i - 1).arch) == hs[i - 1]
    ensures LosesLink(u.prog, u.m0, i) <==>
              && ExposedLink(u, hs, i)
              && !Waits(InstAt(u, hs[i]), At(u.prog, u.m0, i).slots)
              && hs[i].regs[Isa.FieldRd(InstAt(u, hs[i]))] != hs[i].pc + 4
  {
    hide At, Lost, Isa.NextPc, Supported, Target, Rs1, Rs2, Imm, BranchTaken, Waits;
    LostExactly(u.prog, u.m0, i);
    NextPcConforms(u.prog, At(u.prog, u.m0, i).arch);
    SupportedJump(Fetch(u.prog, At(u.prog, u.m0, i).arch), hs[i]);
  }

  lemma SupportedJump(i: Word, h: Isa.Hart)
    requires Supported(i, h)
    ensures Isa.Major(i) == 0x67 || Isa.Major(i) == 0x6F ==> LowAddr(h.pc + 4) == h.pc + 4
  {
    hide Isa.NextPc, Isa.Address, Isa.Legal, Isa.InMemory;
  }

  predicate NothingExposed(u: Setup, hs: seq<Isa.Hart>) {
    forall j {:trigger ExposedLink(u, hs, j)} :: 0 < j < |hs| ==> !ExposedLink(u, hs, j)
  }

  /** Take a program whose RV32I run makes only supported steps and exposes no link. At every cycle
      up to the first with Hcf high, the core's registers and data memory are those of the RV32I
      run at the instructions that write-back and the memory stage have reached. */
  lemma CoreFollowsIsa(u: Setup, cs: seq<Cpu>, fs: seq<Flight>, hs: seq<Isa.Hart>, t: nat)
    requires u.latency >= 3 && IsCoreRun(u, cs) && IsLabelling(u, cs, fs)
    requires IsIsaRun(u, hs) && NothingExposed(u, hs)
    requires t < |cs| && LowBefore(cs, t) && fs[t].next < |hs|
    ensures FromWb(fs[t]) <= FromMem(fs[t]) <= PipelineTheorems.AccessedBy(cs[t],
      fs[t]) <= fs[t].next <= FromWb(fs[t]) + 4
    ensures cs[t].regs == hs[FromWb(fs[t])].regs
    ensures cs[t].dm.bytes == hs[PipelineTheorems.AccessedBy(cs[t], fs[t])].bytes
  {
    hide IsCoreRun, IsIsaRun, Run, At, LowBefore, IsMem;
    LowIsRunning(u, cs, t);
    CoreRunIs(u, cs, t);
    LabellingIs(u, cs, fs, t);
    PipelineTheorems.Refines(u.prog, u.latency, u.m0, t);
    SequentialFollowsIsa(u, hs, FromWb(fs[t]));
    SequentialFollowsIsa(u, hs, PipelineTheorems.AccessedBy(cs[t], fs[t]));
  }

  /** The RV32I run reaches its first HCF at instruction `h`. */
  predicate IsaReachesHcf(u: Setup, hs: seq<Isa.Hart>, h: nat)
    requires h < |hs|
  {
    && 0 <= hs[h].pc < ADDRS && Isa.Major(InstAt(u, hs[h])) == 0x0B
    && forall i {:trigger hs[i]} :: 0 <= i < h ==> Isa.Major(InstAt(u, hs[i])) != 0x0B
  }

  /** The core halts exactly when the RV32I run reaches HCF: within seven cycles plus, for each of
      the `h` instructions before it, six and one memory stall, Hcf rises for the first time, with
      the registers and the data memory of the RV32I run. */
  lemma CoreHaltsAsIsa(u: Setup, cs: seq<Cpu>, hs: seq<Isa.Hart>, h: nat)
    requires u.latency >= 3 && IsCoreRun(u, cs)
    requires IsIsaRun(u, hs) && NothingExposed(u, hs) && h < |hs| && IsaReachesHcf(u, hs, h)
    requires |cs| > 7 + 6 * h + StallCycles(u.latency, h)
    ensures exists t: nat :: t < |cs| && LowBefore(cs, t) && HcfHigh(cs[t]) && cs[t].regs ==
              hs[h].regs && cs[t].dm.bytes == hs[h].bytes
  {
    hide IsCoreRun, IsIsaRun, Run, At, NothingExposed, HcfHigh, Bubbles, IsHcf, StallCycles, InstAt, ExposedLink;
    forall i: nat | i <= h
      ensures IsHcf(Fetch(u.prog, At(u.prog, u.m0, i).arch)) <==> i == h
    {
      ExposedBefore(u, hs, i);
      SequentialFollowsIsa(u, hs, i);
      KindIsMajor(u, At(u.prog, u.m0, i).arch, hs[i]);
    }
    assert HaltsAt(u.prog, u.m0, h);
    ExposedBefore(u, hs, h);
    SequentialFollowsIsa(u, hs, h);
    Halts(u.prog, u.latency, u.m0, h);
    var t := WriteBackCycle(u.prog, u.m0, u.latency, h);
    HaltBound(u.prog, u.m0, u.latency, h);
    OneStepTime(u.prog, u.m0, h);
    HcfIsNoAccess(u.prog, u.m0, h);
    if At(u.prog, u.m0, h).accesses < h { StallsGrow(u.latency, At(u.prog, u.m0, h).accesses, h); }
    forall v: nat | v <= t
      ensures cs[v] == Run(u.prog, u.latency, u.m0, v)
    {
      CoreRunIs(u, cs, v);
    }
    assert LowBefore(cs, t);
  }

  lemma ExposedBefore(u: Setup, hs: seq<Isa.Hart>, i: nat)
    requires NothingExposed(u, hs) && i < |hs|
    ensures forall j {:trigger ExposedLink(u, hs, j)} :: 0 < j < i ==> !ExposedLink(u, hs, j)
  {
    hide ExposedLink;
  }

  lemma KindIsMajor(u: Setup, a: Arch, h: Isa.Hart)
    requires HartOf(a) == h
    ensures IsHcf(Fetch(u.prog, a)) <==> Isa.Major(InstAt(u, h)) == 0x0B
  {}
}
