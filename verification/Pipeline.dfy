/** The five-stage core as a clocked state machine over values: the stage registers, the
    register file and the data memory controller, and what one clock edge makes of them. */
module Pipeline {
  import opened Words
  import opened Rv32Datapath
  import opened DataMemory

  datatype IdReg = IdReg(inst: Word, pc: Addr)
  datatype MemReg = MemReg(inst: Word, pc: Addr, alu: Word, wdata: Word)
  datatype WbReg = WbReg(inst: Word, pcPlus4: Addr, alu: Word, ld: Word)

  datatype Cpu = Cpu(pc: Addr, id: IdReg, exe: ExeReg, mem: MemReg, wb: WbReg, regs: Regs, dm: Dm)

  const NoId := IdReg(0, 0)
  const NoExe := ExeReg(0, 0, 0, 0, 0)
  const NoMem := MemReg(0, 0, 0, 0)
  const NoWb := WbReg(0, 0, 0, 0)

  function PowerOn(bytes: Bytes): Cpu {
    Cpu(0, NoId, NoExe, NoMem, NoWb, seq(32, _ => 0), Reset(bytes))
  }

  // ---- Controller outputs ----

  predicate HcfHigh(c: Cpu) { IsHcf(c.wb.inst) }

  predicate Hazard(d: Word, e: Word, m: Word, w: Word) {
    Overlaps(d, e) || Overlaps(d, m) || Overlaps(d, w)
  }

  predicate StallDH(c: Cpu) { Hazard(c.id.inst, c.exe.inst, c.mem.inst, c.wb.inst) }

  predicate StallMA(latency: nat, c: Cpu) { IsMem(c.mem.inst) && !Ready(latency, c.dm) }

  /** Predict_Miss, the flush: a taken jump whose target is not what decode already holds. */
  predicate Flush(c: Cpu) { Taken(c.exe) && c.id.pc != Target(c.exe) }

  // ---- Stage registers: each keeps, clears or loads by its own priority ----

  function NextPc(stall: bool, old_: Addr, next: Addr): Addr {
    if stall then old_ else next
  }

  function NextId(flush: bool, stall: bool, old_: IdReg, next: IdReg): IdReg {
    if flush then NoId else if stall then old_ else next
  }

  function NextExe(flush: bool, stallMA: bool, stallDH: bool, old_: ExeReg, next: ExeReg): ExeReg {
    if flush then NoExe else if stallMA then old_ else if stallDH then NoExe else next
  }

  function NextMem(stall: bool, old_: MemReg, next: MemReg): MemReg {
    if stall then old_ else next
  }

  function NextWb(stall: bool, stallMA: bool, old_: WbReg, next: WbReg): WbReg {
    if stall then old_ else if stallMA then NoWb else next
  }

  // ---- What each stage hands on ----

  /** The decode stage; the register file reads its value from before this edge. */
  function Decoded(regs: Regs, d: IdReg): ExeReg {
    ExeReg(d.inst, d.pc, regs[Rs1(d.inst)], regs[Rs2(d.inst)], Imm(d.inst))
  }

  function Executed(x: ExeReg): MemReg {
    MemReg(x.inst, x.pc, AluOut(x), x.rs2)
  }

  function Accessed(m: MemReg, rdata: Word): WbReg {
    WbReg(m.inst, LowAddr(m.pc + 4), m.alu, rdata)
  }

  function MemRequest(m: MemReg): Request {
    Request(IsLoad(m.inst), IsStore(m.inst), Funct3(m.inst), LowAddr(m.alu), m.wdata)
  }

  function WbValue(w: WbReg): Word {
    match KindOf(w.inst)
    case Load => w.ld
    case Jalr | Jal => w.pcPlus4
    case _ => w.alu
  }

  /** One clock edge of the whole core. */
  function Step(prog: Program, latency: nat, c: Cpu): Cpu {
    var hcf, dh, ma, flush := HcfHigh(c), StallDH(c), StallMA(latency, c), Flush(c);
    var hold := (hcf || dh || ma) && !flush;
    Cpu(NextPc(hold, c.pc, if flush then Target(c.exe) else LowAddr(c.pc + 4)),
        NextId(flush, hold, c.id, IdReg(prog(c.pc), c.pc)),
        NextExe(flush, ma, hcf || dh, c.exe, Decoded(c.regs, c.id)),
        NextMem(hcf || ma, c.mem, Executed(c.exe)),
        NextWb(hcf, ma, c.wb, Accessed(c.mem, c.dm.data)),
        WriteReg(c.regs, c.wb.inst, WbValue(c.wb)),
        DmNext(latency, c.dm, MemRequest(c.mem)))
  }

  /** The core after `t` clock edges. */
  function Run(prog: Program, latency: nat, bytes: Bytes, t: nat): Cpu {
    if t == 0 then PowerOn(bytes) else Step(prog, latency, Run(prog, latency, bytes, t - 1))
  }

  /** No cycle before `t` raised Hcf. */
  predicate Running(prog: Program, latency: nat, bytes: Bytes, t: nat) {
    forall u: nat :: u < t ==> !HcfHigh(Run(prog, latency, bytes, u))
  }
}
