module RefinementProof {
  import opened Words
  import opened Rv32Datapath
  import opened DataMemory
  import opened Pipeline
  import opened AsBuilt
  import opened Refinement

  // ---- Facts about the datapath ----

  /** A bubble is inert. */
  lemma BubbleFacts(x: ExeReg, i: Word)
    requires x.inst == 0
    ensures !Taken(x) && !WritesRd(0) && !IsMem(0) && !IsHcf(0)
    ensures !Overlaps(0, i) && !Overlaps(i, 0)
  {}

  /** Jumps access no memory, and an instruction loads or stores but not both. */
  lemma KindFacts(x: ExeReg)
    ensures Taken(x) ==> !IsMem(x.inst)
    ensures IsLoad(x.inst) ==> !IsStore(x.inst) && WritesRd(x.inst)
    ensures IsStore(x.inst) ==> !WritesRd(x.inst) && UsesRs2(x.inst)
  {}

  /** Whatever an instruction makes of its operands depends only on the ones it declares. */
  lemma OperandFacts(x: ExeReg, y: ExeReg)
    requires SameOperands(x, y)
    ensures Taken(x) == Taken(y)
    ensures Taken(x) || WritesRd(x.inst) || IsMem(x.inst) ==> AluOut(x) == AluOut(y)
    ensures IsStore(x.inst) ==> x.rs2 == y.rs2
  {
    hide KindOf, Alu, AluSel, BranchTaken;
    if Taken(x) || WritesRd(x.inst) || IsMem(x.inst) {
      assert AluSrc1(x) == AluSrc1(y);
      assert AluSrc2(x) == AluSrc2(y);
    }
  }

  // ---- Facts about the sequential machine ----

  lemma {:induction false} ZeroStaysZero(prog: Program, m0: Bytes, i: nat)
    ensures At(prog, m0, i).arch.regs[0] == 0
  {
    hide Operands, Redirects, SlotsAfter, Settle, Bubbles, DestValue, StoreEffect, Taken, Target;
    if i > 0 {
      ZeroStaysZero(prog, m0, i - 1);
    }
  }

  /** A lost jump changes the pc alone. */
  lemma LostIsInert(prog: Program, m0: Bytes, i: nat)
    requires Lost(prog, At(prog, m0, i))
    ensures At(prog, m0, i + 1).arch.regs == At(prog, m0, i).arch.regs
    ensures At(prog, m0, i + 1).arch.bytes == At(prog, m0, i).arch.bytes
  {
    KindFacts(Operands(prog, At(prog, m0, i).arch));
    hide KindOf, Settle, Bubbles, SlotsAfter, Operands, Taken, Target, DestValue, StoreBytes, AluOut;
  }

  lemma FollowsSame(prog: Program, m0: Bytes, i: nat, j: nat)
    requires Follows(prog, m0, i, j)
    ensures At(prog, m0, j).arch.regs == At(prog, m0, i + 1).arch.regs
    ensures At(prog, m0, j).arch.bytes == At(prog, m0, i + 1).arch.bytes
  {
    hide Lost, At;
    if j == i + 2 {
      LostIsInert(prog, m0, i + 1);
    }
  }

  /** An instruction leaves alone the registers it does not write. */
  lemma Unwritten(prog: Program, m0: Bytes, i: nat, r: nat)
    requires r < 32
    requires var inst := Fetch(prog, At(prog, m0, i).arch); WritesRd(inst) && Rd(inst) != 0 ==> Rd(inst) != r
    ensures At(prog, m0, i + 1).arch.regs[r] == At(prog, m0, i).arch.regs[r]
  {
    ZeroStaysZero(prog, m0, i);
    ZeroStaysZero(prog, m0, i + 1);
    hide Lost, Settle, Bubbles, SlotsAfter, EdgesAfter, Taken, Target, DestValue, StoreEffect, WritesRd, Rd, IsMem;
    hide Imm, Rs1, Rs2;
  }
}
