/** The sequential machine the pipeline implements: one instruction at a time, together with the
    little that its timing leaks. `slots` is what the execute, memory and write-back stages hold
    in front of the next instruction when it first reaches decode; it decides how long the
    instruction waits there and whether a redirecting jump loses its link. */
module AsBuilt {
  import opened Words
  import opened Rv32Datapath
  import opened DataMemory
  import opened Pipeline

  datatype Arch = Arch(pc: Addr, regs: Regs, bytes: Bytes)

  /** Instructions ahead of decode, 0 for a bubble. */
  datatype Slots = Slots(e: Word, m: Word, w: Word)

  /** `edges` counts the clock edges, memory stalls left out, before the instruction first sits in
      decode; `accesses` counts the loads and stores executed. */
  datatype Seq = Seq(arch: Arch, slots: Slots, edges: nat, accesses: nat)

  // ---- Architectural effect of one instruction ----

  function Fetch(prog: Program, a: Arch): Word { prog(a.pc) }

  function Operands(prog: Program, a: Arch): ExeReg {
    Decoded(a.regs, IdReg(Fetch(prog, a), a.pc))
  }

  predicate Redirects(x: ExeReg) { Taken(x) && Target(x) != LowAddr(x.pc + 4) }

  function DestValue(x: ExeReg, m: Bytes): Word {
    match KindOf(x.inst)
    case Load => LoadValue(Funct3(x.inst), LowAddr(AluOut(x)), m)
    case Jalr | Jal => LowAddr(x.pc + 4)
    case _ => AluOut(x)
  }

  function StoreEffect(x: ExeReg, m: Bytes): Bytes {
    if IsStore(x.inst) then StoreBytes(Funct3(x.inst), LowAddr(AluOut(x)), x.rs2, m) else m
  }

  /** `lost` suppresses the register write. */
  function Effect(x: ExeReg, a: Arch, lost: bool): Arch {
    Arch(if Taken(x) then Target(x) else LowAddr(a.pc + 4),
         if lost then a.regs else WriteReg(a.regs, x.inst, DestValue(x, a.bytes)),
         StoreEffect(x, a.bytes))
  }

  // ---- Timing ----

  /** What the three stages hold after an edge that puts `i` into execute; a load or store in the
      memory stage empties write-back while it stalls. */
  function Shift(v: Slots, i: Word): Slots {
    Slots(i, v.e, if IsMem(v.e) then 0 else v.m)
  }

  function Depth(v: Slots): nat {
    if v.e != 0 then 3 else if v.m != 0 then 2 else if v.w != 0 then 1 else 0
  }

  predicate Waits(i: Word, v: Slots) { Hazard(i, v.e, v.m, v.w) }

  lemma WaitingDrains(i: Word, v: Slots)
    requires Waits(i, v)
    ensures Depth(Shift(v, 0)) < Depth(v)
  {}

  /** The slots in front of `i` once nothing ahead of it writes a register it reads. */
  function Settle(i: Word, v: Slots): Slots
    decreases Depth(v)
  {
    if Waits(i, v) then WaitingDrains(i, v); Settle(i, Shift(v, 0)) else v
  }

  /** How many bubbles that takes. */
  function Bubbles(i: Word, v: Slots): nat
    decreases Depth(v)
  {
    if Waits(i, v) then WaitingDrains(i, v); 1 + Bubbles(i, Shift(v, 0)) else 0
  }

  /** A redirecting jump that enters execute directly behind a load or store is flushed out of
      execute while the memory stage is held. */
  predicate Lost(prog: Program, s: Seq) {
    var x := Operands(prog, s.arch);
    Redirects(x) && IsMem(Settle(x.inst, s.slots).e)
  }

  function SlotsAfter(x: ExeReg, settled: Slots): Slots {
    var v := Shift(settled, x.inst);
    if !Redirects(x) then v
    else if IsMem(v.m) then Shift(v.(e := 0), 0)
    else Shift(Shift(v, 0), 0)
  }

  function EdgesAfter(x: ExeReg, settled: Slots): nat {
    if !Redirects(x) then 1 else if IsMem(settled.e) then 2 else 3
  }

  function SeqStep(prog: Program, s: Seq): Seq {
    var x := Operands(prog, s.arch);
    var settled := Settle(x.inst, s.slots);
    Seq(Effect(x, s.arch, Lost(prog, s)),
        SlotsAfter(x, settled),
        s.edges + Bubbles(x.inst, s.slots) + EdgesAfter(x, settled),
        s.accesses + if IsMem(x.inst) then 1 else 0)
  }

  function Boot(bytes: Bytes): Seq {
    Seq(Arch(0, seq(32, _ => 0), bytes), Slots(0, 0, 0), 1, 0)
  }

  /** The machine when it is about to execute its instruction number `i`. */
  function At(prog: Program, bytes: Bytes, i: nat): Seq {
    if i == 0 then Boot(bytes) else SeqStep(prog, At(prog, bytes, i - 1))
  }
}
