/** The core as objects that are clocked: every register file, memory and stage register is
    updated in place, each by its own rule, and one edge of the whole is one step of the state
    machine in Pipeline. */
module CoreHardware {
  import opened Words
  import opened Rv32Datapath
  import opened DataMemory
  import opened Pipeline

  class FetchRegister {
    var pc: Addr

    constructor ()
      ensures pc == 0
    {
      pc := 0;
    }

    method Clock(stall: bool, next: Addr)
      modifies this
      ensures pc == NextPc(stall, old(pc), next)
    {
      if !stall { pc := next; }
    }
  }

  class DecodeRegister {
    var inst: Word
    var pc: Addr

    constructor ()
      ensures State() == NoId
    {
      inst, pc := 0, 0;
    }

    function State(): IdReg
      reads this
    {
      IdReg(inst, pc)
    }

    method Clock(flush: bool, stall: bool, next: IdReg)
      modifies this
      ensures State() == NextId(flush, stall, old(State()), next)
    {
      if flush {
        inst, pc := 0, 0;
      } else if !stall {
        inst, pc := next.inst, next.pc;
      }
    }
  }

  class ExecuteRegister {
    var inst: Word
    var pc: Addr
    var rs1: Word
    var rs2: Word
    var imm: Word

    constructor ()
      ensures State() == NoExe
    {
      inst, pc, rs1, rs2, imm := 0, 0, 0, 0, 0;
    }

    function State(): ExeReg
      reads this
    {
      ExeReg(inst, pc, rs1, rs2, imm)
    }

    method Clear()
      modifies this
      ensures State() == NoExe
    {
      inst, pc, rs1, rs2, imm := 0, 0, 0, 0, 0;
    }

    /** Flush before memory stall before data hazard. */
    method Clock(flush: bool, stallMA: bool, stallDH: bool, next: ExeReg)
      modifies this
      ensures State() == NextExe(flush, stallMA, stallDH, old(State()), next)
    {
      if flush {
        Clear();
      } else if stallMA {
      } else if stallDH {
        Clear();
      } else {
        inst, pc, rs1, rs2, imm := next.inst, next.pc, next.rs1, next.rs2, next.imm;
      }
    }
  }

  class MemoryRegister {
    var inst: Word
    var pc: Addr
    var alu: Word
    var wdata: Word

    constructor ()
      ensures State() == NoMem
    {
      inst, pc, alu, wdata := 0, 0, 0, 0;
    }

    function State(): MemReg
      reads this
    {
      MemReg(inst, pc, alu, wdata)
    }

    method Clock(stall: bool, next: MemReg)
      modifies this
      ensures State() == NextMem(stall, old(State()), next)
    {
      if !stall { inst, pc, alu, wdata := next.inst, next.pc, next.alu, next.wdata; }
    }
  }

  class WriteBackRegister {
    var inst: Word
    var pcPlus4: Addr
    var alu: Word
    var ld: Word

    constructor ()
      ensures State() == NoWb
    {
      inst, pcPlus4, alu, ld := 0, 0, 0, 0;
    }

    function State(): WbReg
      reads this
    {
      WbReg(inst, pcPlus4, alu, ld)
    }

    /** A stall holds, a memory stall inserts a bubble. */
    method Clock(stall: bool, stallMA: bool, next: WbReg)
      modifies this
      ensures State() == NextWb(stall, stallMA, old(State()), next)
    {
      if stall {
      } else if stallMA {
        inst, pcPlus4, alu, ld := 0, 0, 0, 0;
      } else {
        inst, pcPlus4, alu, ld := next.inst, next.pcPlus4, next.alu, next.ld;
      }
    }
  }

  class RegisterFile {
    const regs: array<Word>

    constructor ()
      ensures fresh(regs) && regs.Length == 32
      ensures regs[..] == seq(32, _ => 0)
    {
      regs := new Word[32](_ => 0);
    }

    /** The write port and, last and so winning, the constant zero of x0. */
    method Clock(wen: bool, waddr: nat, wdata: Word)
      requires regs.Length == 32 && waddr < 32
      modifies regs
      ensures regs[..] == (if wen then old(regs[..])[waddr := wdata] else old(regs[..]))[0 := 0]
    {
      if wen { regs[waddr] := wdata; }
      regs[0] := 0;
    }
  }

  class MemoryController {
    const latency: nat
    const memory: array<Byte>
    var phase: Phase
    var counter: nat
    var readAddr: Addr
    var writeAddr: Addr
    var writeData: Word
    var length: Word
    var data: Word

    constructor (latency: nat, bytes: Bytes)
      ensures this.latency == latency && fresh(memory) && memory.Length == ADDRS && State() == Reset(bytes)
    {
      this.latency := latency;
      memory := new Byte[ADDRS](i requires 0 <= i < ADDRS => bytes[i]);
      phase, counter, readAddr, writeAddr, writeData, length, data := Idle, 0, 0, 0, 0, 0, 0;
      new;
      assert memory[..] == bytes;
    }

    function State(): Dm
      requires memory.Length == ADDRS
      reads this, memory
    {
      Dm(phase, counter, readAddr, writeAddr, writeData, length, data, memory[..])
    }

    predicate Valid()
      reads this
    {
      counter == latency - 1
    }

    method Store()
      requires memory.Length == ADDRS
      modifies memory
      ensures memory[..] == StoreBytes(length, writeAddr, writeData, old(memory[..]))
    {
      var p := AlignedTo(length, writeAddr);
      if length == BYTE {
        memory[p] := writeData % 0x100;
      } else if length == HALF {
        memory[p], memory[p + 1] := writeData % 0x100, writeData / 0x100 % 0x100;
      } else {
        var w: Word := if length == WORD then writeData else 0;
        memory[p] := w % 0x100;
        memory[p + 1] := w / 0x100 % 0x100;
        memory[p + 2] := w / 0x1_0000 % 0x100;
        memory[p + 3] := w / 0x1_0000 / 0x100 % 0x100;
      }
    }

    method Clock(q: Request)
      requires memory.Length == ADDRS
      modifies this, memory
      ensures State() == DmNext(latency, old(State()), q)
    {
      match phase {
        case Idle =>
          var valid := Valid();
          if q.read {
            readAddr, length, counter, phase := q.addr, q.length, 1, Reading;
          } else if q.write {
            writeAddr, writeData, length, counter, phase := q.addr, q.wdata, q.length, 1, Writing;
          } else {
            counter := 0;
          }
          if valid { phase := Idle; }
        case Reading =>
          data := LoadValue(length, readAddr, memory[..]);
          Count();
        case Writing =>
          Store();
          Count();
        case Waiting =>
          Count();
      }
    }

    method Count()
      requires memory.Length == ADDRS
      modifies this
      ensures State() == Advance(latency, old(State()))
    {
      if Valid() {
        phase, counter := Idle, 0;
      } else {
        phase, counter := Waiting, counter + 1;
      }
    }
  }

  class Core {
    const prog: Program
    const fetch: FetchRegister
    const decode: DecodeRegister
    const execute: ExecuteRegister
    const access: MemoryRegister
    const writeBack: WriteBackRegister
    const file: RegisterFile
    const dataMem: MemoryController

    constructor (prog: Program, latency: nat, bytes: Bytes)
      ensures Shape() && fresh(Parts()) && this.prog == prog && dataMem.latency == latency
      ensures State() == PowerOn(bytes)
    {
      this.prog := prog;
      fetch := new FetchRegister();
      decode := new DecodeRegister();
      execute := new ExecuteRegister();
      access := new MemoryRegister();
      writeBack := new WriteBackRegister();
      file := new RegisterFile();
      dataMem := new MemoryController(latency, bytes);
    }

    /** The registers and the memory are separate storage of the right size. */
    predicate Shape() {
      file.regs.Length == 32 && dataMem.memory.Length == ADDRS && file.regs as object != dataMem.memory
    }

    function Parts(): set<object> {
      {fetch, decode, execute, access, writeBack, file.regs, dataMem, dataMem.memory}
    }

    function State(): Cpu
      requires Shape()
      reads Parts()
    {
      Cpu(fetch.pc, decode.State(), execute.State(), access.State(), writeBack.State(), file.regs[..], dataMem.State())
    }

    /** One clock edge: all wires settle on the old state, then every register takes its value. */
    method Clock()
      requires Shape()
      modifies Parts()
      ensures Shape() && State() == Step(prog, dataMem.latency, old(State()))
    {
      hide Step;
      var c := State();
      ClockFront(c);
      ClockBack(c);
    }

    /** The registers before execute's outputs. */
    method ClockFront(c: Cpu)
      requires Shape() && fetch.pc == c.pc && decode.State() == c.id && execute.State() == c.exe
      modifies fetch, decode, execute
      ensures var n := Step(prog, dataMem.latency, c);
              fetch.pc == n.pc && decode.State() == n.id && execute.State() == n.exe
    {
      hide KindOf, IsHcf, StallDH, StallMA, Flush, Target, LowAddr, Decoded, HcfHigh, NextPc, NextId, NextExe;
      hide Executed, Accessed, WritesRd, Rd, WbValue, MemRequest, DmNext, NextMem, NextWb, WriteReg;
      var hcf, dh, ma, flush := HcfHigh(c), StallDH(c), StallMA(dataMem.latency, c), Flush(c);
      var hold := (hcf || dh || ma) && !flush;
      fetch.Clock(hold, if flush then Target(c.exe) else LowAddr(c.pc + 4));
      decode.Clock(flush, hold, IdReg(prog(c.pc), c.pc));
      execute.Clock(flush, ma, hcf || dh, Decoded(c.regs, c.id));
    }

    /** The memory and write-back registers, the register file and the data memory. */
    method ClockBack(c: Cpu)
      requires Shape() && access.State() == c.mem && writeBack.State() == c.wb && file.regs[..] == c.regs
      requires dataMem.State() == c.dm
      modifies access, writeBack, file.regs, dataMem, dataMem.memory
      ensures Shape()
      ensures var n := Step(prog, dataMem.latency, c); access.State() == n.mem && writeBack.State() == n.wb
      ensures var n := Step(prog, dataMem.latency, c); file.regs[..] == n.regs && dataMem.State() == n.dm
    {
      hide KindOf, IsHcf, StallDH, StallMA, Flush, Target, LowAddr, Decoded, HcfHigh, NextPc, NextId, NextExe;
      hide Executed, Accessed, WritesRd, Rd, WbValue, MemRequest, DmNext, NextMem, NextWb;
      var hcf, ma := HcfHigh(c), StallMA(dataMem.latency, c);
      access.Clock(hcf || ma, Executed(c.exe));
      writeBack.Clock(hcf, ma, Accessed(c.mem, c.dm.data));
      file.Clock(WritesRd(c.wb.inst), Rd(c.wb.inst), WbValue(c.wb));
      dataMem.Clock(MemRequest(c.mem));
    }
  }
}
