# Verified model of the simulated SoC

This project models the hardest parts of the repository in Dafny and proves what they promise. It has
three cores and two smaller ones.

**The five-stage RV32I pipeline** (`Rv32Datapath`, `DataMem`, `Pipeline`). One clock edge is a function
`Pipeline.Step` over the pc, the four stage registers, the register file and the multi-cycle data memory;
`CoreHardware` has the same core as registers updated in place, and its `Core.Clock` is proved to be that
step. `AsBuilt` is a sequential machine that executes one instruction at a time and keeps a small
scoreboard of the stages, enough to know how many bubbles an instruction waits for and whether a jump is
dropped during a memory stall. `Refinement*` and `Pipeline*` prove that the pipeline refines it, cycle by
cycle and to the exact cycle of halting. `Rv32i` is an independent reading of sections 2.3 to 2.6 of the
RISC-V Unprivileged ISA manual; `Conformance`, `LinkLoss` and `IsaRuns` say exactly when the core
follows the manual. `HazardCheck` relates the C++ hazard predicate to the Chisel controller.

**The weight-stationary systolic array** (`SystolicTile`, `SystolicTiling`, `SystolicArray`,
`MatrixMath`). The PE grid, the skewed injection, the flush, the event schedule of a tile and the tile
queue run as the code does, for any array size n, and are proved equal to matrix multiplication mod 2^16.

**The DMA engine, its bus and its memory** (`DmaModel`, `DmaProof`, `DmaRuns`, `DmaDone`, `DmaCopy`,
`DmaOrder`, `DmaInPlace`, `DmaController`, `Handshake`, `Routing`, `BurstModel`, `BurstMemory`). Whether
the bus register takes a packet is a free choice of every push, and responses arrive whenever they like.
`DmaRuns` is about what is issued, `DmaDone` about what its completion means, `DmaCopy`, `DmaOrder` and
`DmaInPlace` about the bytes that result, `Handshake` about the accelerator that programs the engine and
polls it, `BurstModel` about the memory that answers. `Accelerator` has the accelerator's SRAM and
unpacking, and `EndToEnd` composes the DMA, the unpacking and the array: C is the product of the
matrices in data memory. `SystemRuns` shows that there are such runs.

**The assembler** (`AsmModel`, `AsmProof`, `Emulator`) is modelled from tokens on, together with the
instructions of the CPU that give its output a meaning.

Where the code does something other than one would expect, the model does what the code does, and the
results say exactly when that matters:

- A taken jump in execute during a memory stall is dropped, because flush outranks the stall in the
  execute register while the memory stage holds. The pc is redirected all the same, so a branch, which
  writes nothing, is unharmed; a JAL or JALR loses its link (`LinkLoss`).
- JALR keeps the low bit of its target, which the manual clears (`Conformance.JalrExactly`).
- Unsigned byte and halfword loads are aligned to words (`Conformance.LoadExact`, `LoadReads`).
- The data memory answers loads with fresh data only for latencies of three or more
  (`DataMemory.LoadAnswerFresh`). Its counter is as wide as the latency needs, so the model leaves it
  unbounded.
- The DMA counts only refused packets as pending, so a write phase with no refusal never ends, and DONE
  can precede acknowledgements (`DmaRuns.PhaseEnds`, `DmaDone.SafeExactly`, `DoneTooEarly`).
- Rows are copied rounded up to whole words; the branch for partial words is dead
  (`DmaCopy.StaysInsideExactly`, `DmaControllers.NeverPartial`), and what a row leaves in the next one
  may land after it (`DmaOrder.OrderExactly`).
- Matrix B is fetched with the height and width of matrix A (`Handshake.FetchesBExactly`,
  `ThinMatrixSpills`).
- The range of addresses the accelerator decodes as SRAM compares a byte address with the number of
  words, so only bursts that start in the first 8000 bytes reach it (`EndToEnd.LowOperandsReach`;
  `Routing.ReachesSramExactly` and `WordBecomesEnable` are witnesses).
- The range check of JAL reads an operand that is not set, and register 0 of the C++ CPU is writable
  (`AsmProof.RangeChecks`, `FarJumpAccepted`; `ZeroTestExact` and `JumpSpoilsZero` are witnesses).
- An operand keeps its label type when a second pass over the text section writes an immediate over it
  (`AsmProof.StaleLabelWins`).

The main results quantify over every program, memory, configuration, array size and interleaving. The
memory latency is at least three (the code uses five). `EndToEnd.Accelerate` takes the issued writes to
have landed when the multiplication starts; `DmaDone.SafeExactly` says exactly for which behaviour of the
bus DONE ensures it.

Check everything with `dafny verify dfyconfig.toml`.

## Model

| member | source | states |
|---|---|---|
| `PipelineRuns.CoreRefinesSequential` | chisel_impl/src/main/scala/acal_lab09/PipelinedCPU/PiplinedCPU.scala:64-167 | For every program, initial data memory and memory latency of three or more, at every cycle up to the first with Hcf high: the registers equal the sequential machine's at the oldest instruction in flight, the data memory equals the sequential machine's at the oldest instruction that has not accessed it, and the two are in order and at most four apart. No side condition: the sequential machine is the one the core really implements, lost links included. |
| `PipelineRuns.ExecuteHoldsSequentialOperands` | chisel_impl/src/main/scala/acal_lab09/PipelinedCPU/Controller/Controller.scala:335-365 | At any such cycle the instruction in execute is a step of the sequential run and carries exactly its sequential rs1, rs2, immediate and pc; this rests on the three RAW stalls, the bubbles and the old-value reads of the register file. |
| `PipelineRuns.CoreHaltsOnTime` | chisel_impl/src/main/scala/acal_lab09/PipelinedCPU/PiplinedCPU.scala:64-172 | If the sequential run reaches its first HCF at instruction h, Hcf rises for the first time in exactly the cycle foretold from the sequential run's accounts, with that run's registers and memory. |
| `PipelineRuns.HaltingIsLinear` | chisel_impl/src/main/scala/acal_lab09/PipelinedCPU/Controller/Controller.scala:350-365 | The foretold cycle is at most 7 + 6 per instruction + (latency - 1) per memory access. |
| `PipelineRuns.HaltsForGood` | chisel_impl/src/main/scala/acal_lab09/PipelinedCPU/PiplinedCPU.scala:64-172 | Once Hcf is high it stays high, and at every later cycle the registers, write-back and the memory stage are as they were; a jump already in execute still redirects the pc and empties decode, once. |
| `PipelineTheorems.InFlight` | chisel_impl/src/main/scala/acal_lab09/PipelinedCPU/Controller/Controller.scala:335-365 | The in-flight invariant holds at every cycle up to the first with Hcf high: the non-bubble instructions in the stages are successive steps of the sequential run with sequential operands, results and addresses; cycles split exactly into edges that move and memory stalls. |
| `PipelineTheorems.StepInvariant` | chisel_impl/src/main/scala/acal_lab09/PipelinedCPU/PiplinedCPU.scala:64-167 | One clock edge, in any of its five cases (stall, flush, dropped jump, bubble, advance), keeps that invariant. |
| `PipelineTheorems.Refines` | chisel_impl/src/main/scala/acal_lab09/PipelinedCPU/PiplinedCPU.scala:64-167 | The refinement above, stated on the functions that define the two runs. |
| `PipelineTiming.WriteBackOnTime` | chisel_impl/src/main/scala/acal_lab09/PipelinedCPU/Controller/Controller.scala:350-365 | Every instruction that reaches write-back does so in exactly the cycle computed from the sequential run: one edge each, its hazard bubbles, two edges per redirect (one for a dropped jump), latency - 1 per access. |
| `PipelineTiming.Halts` | chisel_impl/src/main/scala/acal_lab09/PipelinedCPU/Controller/Controller.scala:243-244 | Hcf first rises in exactly that cycle for the HCF instruction. |
| `PipelineTiming.HaltBound` | chisel_impl/src/main/scala/acal_lab09/PipelinedCPU/Controller/Controller.scala:358-363 | At most six edges per instruction and at most one access per instruction. |
| `PipelineTiming.AtMostThreeBubbles` | chisel_impl/src/main/scala/acal_lab09/PipelinedCPU/Controller/Controller.scala:343-348 | A RAW hazard holds an instruction in decode for at most three unstalled cycles. |
| `LinkLoss.EffectExact` | chisel_impl/src/main/scala/acal_lab09/PipelinedCPU/StageRegister/Reg_EXE.scala:35-59 | A step of the sequential machine has the intended effect of its instruction if and only if it is not a jump dropped during a memory stall whose link register does not already hold the link. |
| `LinkLoss.RunsAgreeExactly` | chisel_impl/src/main/scala/acal_lab09/PipelinedCPU/StageRegister/Reg_EXE.scala:35-59 | The core's sequential machine follows the intended run up to instruction n if and only if no link is lost before n. |
| `LinkLoss.LostExactly` | chisel_impl/src/main/scala/acal_lab09/PipelinedCPU/StageRegister/Reg_EXE.scala:35-59 | A jump is dropped if and only if it redirects, directly follows a load or store, and no hazard holds it in decode. |
| `LinkLoss.DroppedExactly` | chisel_impl/src/main/scala/acal_lab09/PipelinedCPU/StageRegister/Reg_EXE.scala:35-59 | The same for any given run of the sequential machine. |
| `LinkLoss.JalBehindAccessIsLost` | chisel_impl/src/main/scala/acal_lab09/PipelinedCPU/StageRegister/Reg_EXE.scala:35-59 | A redirecting JAL directly behind a load or store is always dropped. |
| `LinkLoss.ExposedExactly` | chisel_impl/src/main/scala/acal_lab09/PipelinedCPU/StageRegister/Reg_EXE.scala:35-59 | Told of the RV32I run: a link is lost if and only if a link-writing jump away from its successor directly follows a load or store, no hazard holds it in decode, and the register does not hold the link already. |
| `LinkLoss.LinkLossHappens` | chisel_impl/src/main/scala/acal_lab09/PipelinedCPU/StageRegister/Reg_EXE.scala:35-59 | Concrete program: a store followed by a call loses the return address, whatever the initial memory. |
| `LinkLoss.SequentialFollowsIsa` | chisel_impl/src/main/scala/acal_lab09/PipelinedCPU/PiplinedCPU.scala:64-167 | While every step is supported and no link-writing jump is exposed, the sequential machine is the RV32I run of the manual. |
| `LinkLoss.CoreFollowsIsa` | chisel_impl/src/main/scala/acal_lab09/PipelinedCPU/PiplinedCPU.scala:64-167 | Under the same conditions on the RV32I run, the core's registers and data memory at every cycle are those of the RV32I run at the instructions reached by write-back and by the memory stage. |
| `LinkLoss.CoreHaltsAsIsa` | chisel_impl/src/main/scala/acal_lab09/PipelinedCPU/PiplinedCPU.scala:170-172 | Under the same conditions the core halts, within the linear bound, with the registers and memory of the RV32I run at its HCF. |
| `IsaRuns.FollowsIsaExactly` | chisel_impl/src/main/scala/acal_lab09/PipelinedCPU/PiplinedCPU.scala:64-167 | For every supported RV32I run: the core's registers are those of the RV32I run at every cycle up to t if and only if no instruction that write-back has passed by then lost its link. |
| `IsaRuns.FollowsIsaUnlessLost` | chisel_impl/src/main/scala/acal_lab09/PipelinedCPU/PiplinedCPU.scala:64-167 | As long as nothing issued has lost its link, the data memory follows the RV32I run too. |
| `Conformance.ImmIAgrees` | chisel_impl/src/main/scala/acal_lab09/PipelinedCPU/DatapathModule/DatapathComponent/ImmGen.scala:16-52 | The I immediate is the signed field of the RISC-V manual (section 2.3), mod 2^32. |
| `Conformance.ImmSAgrees` | chisel_impl/src/main/scala/acal_lab09/PipelinedCPU/DatapathModule/DatapathComponent/ImmGen.scala:33-37 | The same for S. |
| `Conformance.ImmBAgrees` | chisel_impl/src/main/scala/acal_lab09/PipelinedCPU/DatapathModule/DatapathComponent/ImmGen.scala:26-31 | The same for B. |
| `Conformance.ImmJAgrees` | chisel_impl/src/main/scala/acal_lab09/PipelinedCPU/DatapathModule/DatapathComponent/ImmGen.scala:42-47 | The same for J. |
| `Conformance.ComputeAgrees` | chisel_impl/src/main/scala/acal_lab09/PipelinedCPU/DatapathModule/DatapathComponent/ALU.scala:19-31 | The ALU under the controller's select computes what funct3 and funct7 name, shifts defined by powers of two in the reference. |
| `Conformance.XorBits` | chisel_impl/src/main/scala/acal_lab09/PipelinedCPU/DatapathModule/DatapathComponent/ALU.scala:25 | For all words: bit k of the exclusive or, for each k below 32, is 1 if and only if the two bits differ. |
| `Conformance.OrBits` | chisel_impl/src/main/scala/acal_lab09/PipelinedCPU/DatapathModule/DatapathComponent/ALU.scala:27 | The same for or: if and only if one of the two bits is 1. |
| `Conformance.AndBits` | chisel_impl/src/main/scala/acal_lab09/PipelinedCPU/DatapathModule/DatapathComponent/ALU.scala:28 | The same for and: if and only if both are. |
| `Conformance.UndefinedComputes` | chisel_impl/src/main/scala/acal_lab09/PipelinedCPU/DatapathModule/DatapathComponent/ALU.scala:19-31 | Words the manual does not define: a register operation or right shift whose funct7 selects nothing writes zero, an immediate left shift does not look at its funct7. |
| `Conformance.BranchAgrees` | chisel_impl/src/main/scala/acal_lab09/PipelinedCPU/Controller/Controller.scala:93-107 | The branch decision from the comparator outputs is the manual's, signed and unsigned. |
| `Conformance.LoadExact` | chisel_impl/src/main/scala/acal_lab09/Memory/DataMem.scala:51-79 | A load returns the manual's value for every memory if and only if LB, or an even LH, or a multiple of four for LW, LBU and LHU. |
| `Conformance.StoreExact` | chisel_impl/src/main/scala/acal_lab09/Memory/DataMem.scala:81-113 | A store leaves the manual's bytes for every memory and value if and only if its address is a multiple of its width. |
| `Conformance.LoadReads` | chisel_impl/src/main/scala/acal_lab09/Memory/DataMem.scala:51-79 | At every address, aligned or not, a load returns the manual's value at its address rounded down: LB at the byte, LH to even, all others, LBU and LHU too, to a multiple of four. |
| `Conformance.StoreWrites` | chisel_impl/src/main/scala/acal_lab09/Memory/DataMem.scala:81-113 | At every address a store leaves the manual's bytes at its address rounded down to a multiple of its width. |
| `Conformance.UndefinedAccesses` | chisel_impl/src/main/scala/acal_lab09/Memory/DataMem.scala:51-113 | A load of an undefined length answers zero, a store of one clears the word around its address. |
| `Conformance.JalrExactly` | chisel_impl/src/main/scala/acal_lab09/PipelinedCPU/DatapathModule/Path_EXE.scala:54-61 | A JALR goes where the manual says if and only if its sum is an even address of the memory. |
| `Conformance.InstructionConforms` | chisel_impl/src/main/scala/acal_lab09/PipelinedCPU/DatapathModule/Path_EXE.scala:32-61 | Every supported instruction has on this datapath exactly the effect the manual gives it on pc, registers and memory. |
| `Conformance.SupportedExactly` | chisel_impl/src/main/scala/acal_lab09/PipelinedCPU/DatapathModule/Path_EXE.scala:32-61 | What is supported is exactly: a legal word whose pc moves as in the manual, with a next instruction to link to, and accesses inside the 32 KiB and so aligned. |
| `DataMemory.HeldRequest` | chisel_impl/src/main/scala/acal_lab09/Memory/DataMem.scala:28-124 | State of a held request after each edge: counter, phase, latched request, bytes updated once on the second edge. |
| `DataMemory.RequestServed` | chisel_impl/src/main/scala/acal_lab09/Memory/DataMem.scala:28-124 | For every latency of three or more a request held from rest is answered exactly latency - 1 cycles later and no earlier, a load with the bytes as of its request, a store with its bytes updated exactly once, and the controller is at rest one edge later. |
| `DataMemory.LoadAnswerFresh` | chisel_impl/src/main/scala/acal_lab09/Memory/DataMem.scala:71-78 | The load value accompanies the answer for every request exactly when the latency is at least three. |
| `DataMemory.StoreLands` | chisel_impl/src/main/scala/acal_lab09/Memory/DataMem.scala:81-113 | For every request and memory a held store is in the bytes when the answer comes exactly for latencies of three or more, and an edge later exactly for two or more. |
| `DataMemory.LatencyOne` | chisel_impl/src/main/scala/acal_lab09/Memory/DataMem.scala:28-124 | At latency one a request is answered in its own cycle, writes and latches nothing, and leaves the controller at rest when it is gone. |
| `CoreHardware.Core.Clock` | chisel_impl/src/main/scala/acal_lab09/PipelinedCPU/PiplinedCPU.scala:64-167 | One clock of the registers wired together is one step of the state machine all the results above are about. |
| `CoreHardware.FetchRegister.Clock` | chisel_impl/src/main/scala/acal_lab09/PipelinedCPU/StageRegister/Reg_IF.scala:17-23 | Holds or loads the pc. |
| `CoreHardware.DecodeRegister.Clock` | chisel_impl/src/main/scala/acal_lab09/PipelinedCPU/StageRegister/Reg_ID.scala:23-32 | Flush before hold before load. |
| `CoreHardware.ExecuteRegister.Clock` | chisel_impl/src/main/scala/acal_lab09/PipelinedCPU/StageRegister/Reg_EXE.scala:35-59 | Flush before memory hold before hazard bubble before load. |
| `CoreHardware.MemoryRegister.Clock` | chisel_impl/src/main/scala/acal_lab09/PipelinedCPU/StageRegister/Reg_MEM.scala:28-38 | Holds or loads. |
| `CoreHardware.WriteBackRegister.Clock` | chisel_impl/src/main/scala/acal_lab09/PipelinedCPU/StageRegister/Reg_WB.scala:29-44 | Hold before bubble before load. |
| `CoreHardware.RegisterFile.Clock` | chisel_impl/src/main/scala/acal_lab09/PipelinedCPU/DatapathModule/DatapathComponent/RegFile.scala:16-24 | Writes one register, register 0 stays zero, reads see the old values. |
| `CoreHardware.MemoryController.Clock` | chisel_impl/src/main/scala/acal_lab09/Memory/DataMem.scala:28-124 | One clock of the memory controller, bytes updated in place. |
| `HazardCheck.HazardsAgree` | src/riscv/include/PipelineUtils.hh:231-264 | For any contents of decode, execute, memory and write-back the C++ predicate stalls exactly when the Chisel controller raises one of its three data-hazard stalls. |
| `HazardCheck.DependsExactly` | src/riscv/include/PipelineUtils.hh:173-229 | One pair of stages: the C++ dependence test is the Chisel overlap, although stores keep their operands in the opposite order. |
| `HazardCheck.SourcesAgree` | src/riscv/include/PipelineUtils.hh:108-229 | A register is reported as a dependence exactly when the encoded instruction reads it. |
| `HazardCheck.DestinationsAgree` | src/riscv/include/PipelineUtils.hh:73-106 | The destination is that of the encoded instruction, or 0 when it writes none. |
| `HazardCheck.Encodable` | src/riscv/include/PipelineUtils.hh:15-67 | Every mnemonic with any registers 0 to 31 has a machine word, by its literal opcode, funct3 and funct7: no mnemonic is left out of the results above. |
| `HazardCheck.LegalExactly` | src/riscv/include/PipelineUtils.hh:15-67 | The words of the mnemonics are exactly the words of the manual's instructions that the core claims. |
| `SystolicTile.Grid.PreloadWeight` | soc/libs/SystolicArray.cc:488-509 | After n preload cycles PE (i, j) holds B_Tile[i][j]. |
| `SystolicTile.Grid.PropagateAndMac` | soc/libs/SystolicArray.cc:511-571 | Keeps the wavefront: partial sum (i, j) is valid exactly when 0 <= t - i - j < n and then holds the first i + 1 terms of row t - i - j mod 2^16; each column has emitted its first rows in order. |
| `SystolicTile.Grid.FlushAndEmit` | soc/libs/SystolicArray.cc:573-622 | Keeps the same wavefront in the flush phase whatever values are shifted into column 0. |
| `SystolicArrays.SystolicArray.ScheduleTile` | soc/libs/SystolicArray.cc:624-678 | Schedules n preload, 2n - 1 propagate and n flush events at consecutive ticks and the deposit at tick 4n + 1. |
| `SystolicArrays.TickOrder` | soc/libs/SystolicArray.cc:633-677 | The order of scheduling is strictly the order of ticks. |
| `SystolicArrays.SystolicArray.RunTile` | soc/libs/SystolicArray.cc:488-678 | The events of a tile leave Tile_Result = A_Tile times B_Tile mod 2^16, for every n and all tiles, independently of the flush input. |
| `SystolicArrays.SystolicArray.LoadATile` | soc/libs/SystolicArray.cc:425-435 | The tile is the block of A, zero-padded. |
| `SystolicArrays.SystolicArray.LoadBTile` | soc/libs/SystolicArray.cc:438-448 | The tile is the block of B, zero-padded. |
| `SystolicArrays.SystolicArray.FillQueue` | soc/libs/SystolicArray.cc:450-460 | The queue is the row-major sequence of tiles over the three block loops. |
| `SystolicArrays.SystolicArray.DepositTile` | soc/libs/SystolicArray.cc:668-673 | C grows by the tile results inside the tile, wrapped to 16 bits, and keeps every other entry. |
| `SystolicArrays.SystolicArray.ComputeTile` | soc/libs/SystolicArray.cc:464-481 | One tile: its results are the partial products over its slice of the inner dimension, 4n + 1 ticks later. |
| `SystolicArrays.SystolicArray.RunQueue` | soc/libs/SystolicArray.cc:464-481 | Running the queue accumulates the shares of all tiles; done is raised when it is empty. |
| `SystolicArrays.SystolicArray.ComputeMatrix` | soc/libs/SystolicArray.cc:450-481 | For all n >= 1 and strides up to 64: C[r][c] is the sum over k < strideB of A[r][k] B[k][c] mod 2^16, written out as at least 0, below 65536 and congruent modulo 65536, and equal up to 65535, for r < strideA, c < strideB, zero elsewhere, and done comes after (number of tiles)(4n + 1) ticks. |
| `SystolicArrays.ProductIsWhole` | soc/libs/SystolicArray.cc:450-460 | With B zero beyond strideB the inner dimension loses nothing, and a sum up to 65535 is exact. |
| `SystolicTiling.QueueTotal` | soc/libs/SystolicArray.cc:450-460 | The shares of all queued tiles add up to exactly the inner product inside the strides and to nothing outside. |
| `SystolicTiling.QueueCount` | soc/libs/SystolicArray.cc:450-460 | The queue has blocks(strideA) times blocks(strideB) squared tiles. |
| `SystolicTiling.BlocksCeiling` | soc/libs/SystolicArray.cc:451-456 | The number of blocks is the stride divided by n, rounded up. |
| `SystolicTiling.QueueInside` | soc/libs/SystolicArray.cc:451-457 | No tile reaches beyond the strides or beyond n by n. |
| `SystolicTiling.TileDot` | soc/libs/SystolicArray.cc:425-448 | A product over zero-padded tiles is the slice of the product over the matrices. |
| `DmaProof.StepKeeps` | soc/libs/DMA.cc:151-332 | Every step of the engine keeps: the write requests made so far are the first words of the transfer in row-major order, each with its destination address and its source word; the buffer holds the words that follow; one read burst is outstanding or one event is scheduled. |
| `DmaRuns.IssuesTheTransfer` | soc/libs/DMA.cc:151-332 | In every state of every run, whatever the bus takes and whenever responses come: the write requests made are a prefix, and at DONE all, of the row-major word list, each word once, with its address and source word; each is with the bus or in the queue, in bursts of 1, 2 or 4; at most one read burst is outstanding. |
| `DmaRuns.BuffersTheSource` | soc/libs/DMA.cc:151-278 | bufferIndex <= 256 and wordsToBuffer <= totalWords; while reading, wordsToBuffer = wordsTransferred + bufferIndex and the buffer holds exactly those source words; reads are scheduled only with none outstanding and words missing, so the branch for nothing to read is never taken; a write phase never finds the buffer empty. |
| `DmaRuns.AsksForNext` | soc/libs/DMA.cc:151-227 | Every scheduling of reads in every run: one burst, of four words when that many fit and are missing and else of two or one, for the source words and buffer places that come next, with the bus if it is taken and last in the queue if not. |
| `DmaRuns.RetryKeepsOrder` | soc/include/DMA.hh:80-86 | A retry sends the packet refused first; sent and queued packets together keep their order. |
| `DmaRuns.PhaseBegins` | soc/libs/DMA.cc:298-329 | A write phase begins with the scheduled event: the engine then waits, every buffered word is out, and it waits for as many responses as the bus refused pushes, which is what the request queue grows by. |
| `DmaRuns.PhaseEnds` | soc/libs/DMA.cc:486-510 | A write phase ends with the response that brings the responses since it began up to the pushes refused in it, and with no other step; with none refused it never ends. At its end the buffer is empty and its words are zeroed and the engine is done exactly if all words are out. |
| `DmaRuns.LateResponse` | soc/libs/DMA.cc:486-510 | Outside a write phase responses only lower the count: no second hand-over. |
| `DmaDone.AnswersAfterDone` | soc/libs/DMA.cc:486-510 | Any number of responses after DONE is possible and leaves everything as it is but the count, which goes below zero by that number. |
| `DmaDone.RestsAgain` | soc/libs/DMA.cc:105-145 | In whatever state a transfer has left the engine, with responses still out or not, it can be enabled for any other: the results hold for transfer after transfer. |
| `DmaDone.RunLedger` | soc/libs/DMA.cc:298-329 | Over any run, packets made = responses received + packets taken by the bus at once - late responses + the pending count while waiting. |
| `DmaDone.SafeExactly` | soc/libs/DMA.cc:298-329 | For every configuration and every policy of the bus (which pushes of which write phase it takes at once): in all runs that end in DONE, in which responses only answer packets that have left the engine and were not answered before, every write packet has been answered, if and only if the bus takes none at once in any phase, or takes all those of some phase, in which case no run ends in DONE. |
| `DmaDone.CompletesExactly` | soc/libs/DMA.cc:493-504 | Some such run ends in DONE if and only if the bus refuses some write packet of every phase. |
| `DmaDone.ShortAtDone` | soc/libs/DMA.cc:493-504 | In any run the packets unanswered at DONE are those the bus took at once less the responses that came while none was waited for. |
| `DmaDone.RefusingIsSafe` | soc/libs/DMA.cc:320-325 | If the bus takes no write packet at once and responses are honest, DONE follows all acknowledgements. |
| `DmaDone.DoneTooEarly` | soc/libs/DMA.cc:320-325 | In the last write phase with some packets taken at once and some refused, however many of each: when the refused ones have left the queue, as many responses as were refused raise DONE while the others are unanswered. |
| `DmaCopy.CopiedInOrder` | soc/libs/DMA.cc:404-444 | Writes landing in issue order with dstStride >= width leave byte b < width of destination row r equal to byte b of source row r. |
| `DmaCopy.CopiedInAnyOrder` | soc/libs/DMA.cc:404-444 | The same for every byte of the padded rows and writes landing in any order, if there is one row, or rows of whole words are apart, or both strides are equal. |
| `DmaOrder.OrderExactly` | soc/libs/DMA.cc:404-444 | For every configuration with disjoint rectangle rows: the bytes of the rectangle are right for every source, every destination and every order in which the bursts can land (beats of one burst in their order, of different bursts in any), if and only if there is one row, or padded rows are apart, or both strides are equal, or no row but the first begins with the first word of a burst. |
| `DmaOrder.PacketHolds` | soc/libs/DMA.cc:296-329 | Which words of the transfer each packet of each write phase holds, in order: the bursts of the result above. |
| `DmaCopy.TouchesPaddedRows` | soc/libs/DMA.cc:120-121 | The bytes written are exactly those of the rows rounded up to whole words. |
| `DmaCopy.StaysInsideExactly` | soc/libs/DMA.cc:418-430 | Nothing outside the destination rectangle is written if and only if the width is a multiple of four. |
| `DmaCopy.RunCopies` | soc/libs/DMA.cc:105-332 | From ENABLE to DONE with everything landed in any order, for every interleaving, from one memory to another: the padded rows are copied and every other byte is unchanged. |
| `DmaInPlace.CopiesInPlace` | soc/libs/DMA.cc:105-332 | The same within one memory, reads answered by the memory as it then is and writes landing during the run, if the padded rows at the two ends are apart: destination bytes are what the source bytes were before the transfer. |
| `DmaInPlace.LandingsAreFree` | soc/libs/DMA.cc:151-332 | Within one memory and with the ends apart it makes no difference when writes land: any run over the source as it was is a run within the memory, for every way in which writes already made can land meanwhile. |
| `DmaControllers.LongestBurst` | soc/libs/DMA.cc:343-389 | For any assignment of one or two sub-packets per word, the result is the longest prefix whose sub-packet total is 1, 2 or 4, at least one word. |
| `DmaControllers.WholeWords` | soc/libs/DMA.cc:370-376 | With one sub-packet per word that prefix is the largest of 4, 2, 1 that fits. |
| `DmaControllers.NeverPartial` | soc/libs/DMA.cc:356-368 | The column never reaches the words per row, so no word is ever split into SB or SH. |
| `DmaControllers.DmaController.ReadMmio` | soc/libs/DMA.cc:14-54 | The registers by address, and which addresses are refused. |
| `DmaControllers.DmaController.WriteMmio` | soc/libs/DMA.cc:59-100 | Which register changes; an odd write to ENABLE starts the transfer its registers describe, a write to DONE clears it. |
| `DmaControllers.DmaController.InitializedTransaction` | soc/libs/DMA.cc:105-145 | Decodes the registers, resets the counters and schedules the first read burst. |
| `DmaControllers.DmaController.ScheduleReadsForBuffer` | soc/libs/DMA.cc:151-227 | One scheduling of reads is the step of the model. |
| `DmaControllers.DmaController.HandleReadResponse` | soc/libs/DMA.cc:232-278 | Storing the beats by their carried index and moving on is the step of the model. |
| `DmaControllers.DmaController.IssueWrites` | soc/libs/DMA.cc:298-332 | The loop over bursts makes exactly the packets of the model, offered in order, refused ones queued and counted. |
| `DmaControllers.DmaController.ScheduleWritesFromBuffer` | soc/libs/DMA.cc:280-332 | The step of the model, including the empty-buffer branches. |
| `DmaControllers.DmaController.CreateWriteRequestsForChunk` | soc/libs/DMA.cc:404-432 | The requests of a chunk, with the branch for partial words proved dead. |
| `DmaControllers.DmaController.HandleWriteCompletion` | soc/libs/DMA.cc:486-510 | One write response is the step of the model, clearing the buffer in place. |
| `DmaControllers.DmaController.TrySendPacket` | soc/include/DMA.hh:80-86 | The head of the queue is sent if the bus takes it. |
| `Handshake.StepGood` | soc/libs/SystolicArray.cc:352-413 | Every step of accelerator, in-order bus and engine keeps: commands of one order arrive in order, exactly one poll is under way and cannot be answered before the last command, and an answer of 1 means that order is finished. |
| `Handshake.AnswerIsFresh` | soc/libs/SystolicArray.cc:352-363 | Whatever the done register held before, a poll answering 1 while a matrix is fetched follows the ENABLE of that same matrix, and the engine has issued all of it. |
| `Handshake.ComputesOnce` | soc/libs/SystolicArray.cc:352-409 | The multiplication is started once, exactly on leaving the second fetch, and by then every word of both matrices has been issued once and nothing else. |
| `Handshake.StaysComputing` | soc/libs/SystolicArray.cc:352-413 | Once multiplying, the accelerator never fetches or starts again. |
| `Handshake.EarlyPoll` | soc/libs/SystolicArray.cc:352-363 | A poll queues behind whatever commands are still on their way; one answered before the engine is done is sent again and changes nothing else. |
| `Handshake.PackedDecodes` | soc/libs/SystolicArray.cc:717-721 | The size register as packed decodes to the same width, height and strides while every field fits its byte. |
| `Handshake.PackedSpills` | soc/libs/SystolicArray.cc:749-753 | For counts of up to twelve bits: what spills out of each field and into which. |
| `Handshake.OrBits` | soc/libs/SystolicArray.cc:721 | Bit k of the or that packs the size register is 1 if and only if one of the two bits is. |
| `Handshake.OrdersDecoded` | soc/libs/SystolicArray.cc:698-760 | For all M and K up to 4096 and strides below 256: the source, destination, width, height and strides the engine decodes from each order. |
| `Handshake.FetchesAExactly` | soc/libs/SystolicArray.cc:717-721 | Matrix A is fetched whole and nothing more exactly when M and K are at most 256. |
| `Handshake.FetchesBExactly` | soc/libs/SystolicArray.cc:749-753 | For all M, K and N: matrix B is fetched whole and nothing more exactly when K - 1 is the low byte of M - 1 and N - 1 is K - 1 or-ed with the rest of M - 1. |
| `Handshake.FetchesSquareB` | soc/libs/SystolicArray.cc:749-753 | While M is at most 256, that is when M = K = N. |
| `Handshake.ThinMatrixSpills` | soc/libs/SystolicArray.cc:717-753 | With M = 1 and K = 512 both matrices are fetched with 256 columns, and B with one added to an even destination stride. |
| `Accelerators.Accelerator.Store` | soc/libs/SystolicArray.cc:253-282 | Little-endian store of 1, 2 or 4 bytes into the SRAM; refused and without effect outside it. |
| `Routing.Routes` | soc/include/MMIOUtil.hh:29-37 | Which slave every address goes to, with the ranges written out. |
| `Routing.Dispatches` | soc/libs/SystolicArray.cc:57-83 | What becomes of every write request at the accelerator: the first 8000 of the 32000 bytes of SRAM are taken for it, one beat elsewhere goes to a register, several are refused. |
| `Accelerators.Accelerator.LoadMatrix` | soc/libs/SystolicArray.cc:365-383 | Entry (i, j) of the unpacked matrix is the SRAM byte at the row pitch of whole words; other entries are kept. |
| `Accelerators.Accelerator.Clear` | soc/libs/SystolicArray.cc:342-348 | ENABLE zeroes the three matrices. |
| `Accelerators.Accelerator.Multiply` | soc/libs/SystolicArray.cc:364-409 | With both operands in the SRAM, C is their product mod 65536, exact up to 65535, and done is raised. |
| `Accelerators.Accelerator.Deliver` | soc/libs/SystolicArray.cc:57-83 | A write burst goes to the SRAM if its first address is in the range taken for it, and then all its beats are scheduled; otherwise none is. |
| `Accelerators.Accelerator.RunBeats` | soc/libs/SystolicArray.cc:66-73 | The scheduled beats, run in any order, leave the bytes of the last write over each. |
| `Accelerators.Accelerator.Land` | soc/libs/SystolicArray.cc:57-83 | Bursts that all start in that range land completely. |
| `EndToEnd.LowOperandsReach` | soc/libs/SystolicArray.cc:57-62 | With both operands in that quarter every burst of the transfer reaches the SRAM. |
| `EndToEnd.AnswersAreHonest` | soc/include/MMIOUtil.hh:29-37 | With both operands in addresses routed to the data memory, every answer the engine gets carries the words of the data memory. |
| `EndToEnd.SquareExactly` | soc/libs/SystolicArray.cc:330-340 | The setups of the end-to-end result, with every bound written out: square operands of up to 44 rows of whole words, anywhere apart in the 32000 bytes of SRAM. |
| `EndToEnd.DataMemoryExactly` | soc/include/MMIOUtil.hh:29-37 | An operand lies wholly in addresses routed to the data memory exactly if it fits one of the four gaps around the device ranges. |
| `EndToEnd.Accelerate` | soc/libs/SystolicArray.cc:352-409 | End to end: for M = K = N = strides = s, a multiple of four within the size assert, regions apart in the SRAM, operands in addresses routed to the data memory, after any run of the handshake with the issued bursts delivered in the range taken for the SRAM and their beats run in any order, C is the product mod 65536, exact up to 65535, of the matrices at A_addr_dm_ and B_addr_dm_ in data memory. |
| `SystemRuns.SomeRunComputes` | soc/libs/SystolicArray.cc:324-409 | From every resting system some run comes to the multiplication. |
| `SystemRuns.SomeRunDelivers` | soc/libs/SystolicArray.cc:324-409 | For every supported setup with operands in the first quarter of the SRAM, some run from a fresh engine comes to the multiplication with all its bursts reaching the SRAM: the hypotheses of the end-to-end result can be met. |
| `EndToEnd.OperandsArrive` | soc/libs/SystolicArray.cc:698-760 | Every element of both operands is in the SRAM where the unpacking expects it, in whatever order the words landed. |
| `EndToEnd.UnpackedWhereStored` | soc/libs/SystolicArray.cc:365-383 | After a transfer with row stride s, the byte from which each element is unpacked holds that element, for every memory, exactly when s is a multiple of four or one. |
| `BurstModel.AnsweredOnce` | soc/libs/DataMemory.cc:19-117 | For any interleaving of the beats of requests with distinct transaction numbers: a request has exactly one response once its last beat is done and none before, with one reply per beat in payload order; each hands back its tag with the data the memory held at the step that ran that beat; and pending_ holds exactly the unfinished requests. |
| `BurstModel.StepKeeps` | soc/include/DataMemory.hh:59-116 | Arrival, a beat of any request, or a send keeps that account for all requests. |
| `BurstModel.AnswerComes` | soc/libs/DataMemory.cc:19-130 | Whatever has happened before, a new request of any kind and length inside the memory can be taken, served beat by beat and answered, with exactly one response of a reply per beat. |
| `BurstModel.LoadMeans` | soc/libs/DataMemory.cc:37-45 | LBU, LHU and LW answer the little-endian value of their bytes, LB and LH that value read as 8-bit and 16-bit two's complement. |
| `BurstModel.StoreMeans` | soc/libs/DataMemory.cc:83-99 | SB, SH and SW leave the low one, two or four bytes of the data little end first, and every other byte as it was. |
| `BurstModel.LandingIsByteAfter` | soc/libs/DataMemory.cc:83-99 | Word writes done beat by beat leave the bytes the DMA results speak of. |
| `BurstModel.WordReadIsWordAt` | soc/libs/DataMemory.cc:37-45 | A word read returns the little-endian word the DMA results speak of. |
| `BurstMemories.BurstMemory.MemReadReqHandler` | soc/libs/DataMemory.cc:19-66 | One read beat is the step of the model, with sign extension by operation. |
| `BurstMemories.BurstMemory.MemWriteReqHandler` | soc/libs/DataMemory.cc:68-117 | One write beat: the bytes change in place, then the reply is collected. |
| `BurstMemories.BurstMemory.CollectReply` | soc/libs/DataMemory.cc:52-64 | The tracker is created, filled, and turned into a response exactly when full. |
| `BurstMemories.BurstMemory.TrySendResponse` | soc/libs/DataMemory.cc:121-130 | The head of the response queue is sent if the bus takes it. |
| `AsmProof.LineMeans` | soc/libs/Emulator.cc:152-486 | Every line whose words no later line overwrites and whose immediate is no stale label does, in as many instructions as it has words, what its tokens say from any state of the whole machine: li and la leave exactly the constant or the label address in the register, jumps go to the place their label marks, everything else is passed through unchanged. |
| `AsmProof.BranchGoes` | soc/libs/CPU.cc:87-104 | For all six conditions on any register values: a branch line goes to its mark exactly if the registers are equal, differ, are below or not below one another as signed, or as unsigned numbers. |
| `AsmProof.WritersLeave` | soc/libs/CPU.cc:58-149 | The registers and the pc that jumps, moves, constants, addresses, LUI and ADDI leave, told on register values. |
| `AsmProof.PlaceAfter` | soc/libs/Emulator.cc:126-150 | How far each line moves the offset: sections to their starts, data by all of its elements, instructions by four or eight bytes. |
| `AsmProof.ResolvesExactly` | soc/libs/Emulator.cc:584-657 | A word no line has written is passed over whatever its operands hold; any other is resolved exactly if its labels are defined and in range. |
| `AsmProof.RunsAgree` | soc/libs/CPU.cc:58-149 | Assembling preserves meaning: for every machine around the core (memories, devices, anything else a load may read), after any number of lines from any state the core on the assembled words is, with all of the machine, in the very state the lines lead to. |
| `AsmProof.LabelsLead` | soc/libs/Emulator.cc:584-657 | The resolved operand of every jump and branch leads to the instruction line that follows its label: fetching there gives that line's first word, and the operand is four times its index whenever the line is word-aligned. |
| `AsmProof.ResolvesToPlace` | soc/libs/Emulator.cc:659-665 | A label resolves to the place of the first line that defines it, and to nothing if none does. |
| `AsmProof.ImageStays` | soc/libs/Emulator.cc:556-576 | The words of a line that no later line overwrites are what it wrote over what it found there. |
| `AsmProof.ForwardIsSound` | soc/libs/Emulator.cc:126-138 | In a program that does not go back to the start of the text section, every instruction keeps its words and finds no stale label. |
| `AsmProof.StaleLabelWins` | soc/libs/Emulator.cc:204-256 | Where an earlier line at the same place has left a label in an operand that an instruction writes as an immediate, the label's address wins: the word is what the line spells out exactly if that is the same number. |
| `AsmProof.TypesLeft` | soc/libs/Emulator.cc:152-486 | Which operands are of the label type once each word is written, and with which label: plain lines leave all three as they find them, branches the first two, jumps the third. |
| `AsmProof.PairMeans` | soc/libs/Emulator.cc:349-388 | LUI of the upper 20 bits and ADDI of the lower 12, not sign-extended, make up the constant in any register from any state. |
| `AsmProof.RangeChecks` | soc/libs/Emulator.cc:608-652 | A branch is accepted exactly when its label is defined less than 8192 bytes away; for a jump the check looks at an unset operand and never at the target. |
| `AsmProof.FarJumpAccepted` | soc/libs/Emulator.cc:608-618 | Concrete program: a jump to a label four megabytes away is assembled without a complaint. |
| `Emulators.Emulator.Parse` | soc/libs/Emulator.cc:524-578 | The first pass fails exactly when an instruction would start in the data section, and otherwise fills the instruction memory, the label table and the offset as the model says. |
| `Emulators.Emulator.NormalizeLabels` | soc/libs/Emulator.cc:584-657 | The second pass resolves every word in place, and fails exactly when one cannot be resolved. |
| `Emulators.Emulator.Assemble` | soc/libs/Emulator.cc:520-582 | Both passes succeed exactly for the programs that can be assembled, with the words the results above are about. |

## Left out

- The ACALSim library (crossbar arbitration, pipe registers, event engine, recycling of packets): replaced by free push results, responses at any time, in-order delivery on the accelerator's channel, and events in tick order.
- The data memory after the first cycle with Hcf high: a store right behind HCF can still start. The rest of the core is frozen (`PipelineRuns.HaltsForGood`).
- The core at memory latencies below three, beyond what `DataMemory.LoadAnswerFresh`, `StoreLands` and `LatencyOne` say of its memory.
- The instruction memory of the Chisel core: an arbitrary function from addresses to words that always answers at once.
- The stage functions of the C++ pipeline in src/riscv: they depend on the stall behaviour of the library's registers; only their hazard predicate is modelled.
- Conformance of the C++ CPU to RV32I: it adds for SLTU and leaves shift amounts unmasked. In `AsmProof` every instruction that names no label, other than LUI and ADDI, is an arbitrary function of the whole machine's state, memories and devices included.
- The retry of the CPU's bus requests and the custom function unit.
- DmaDone.RunLedger: says nothing about which packet a response answers, because the engine does not look either.
- DMA re-enabled in mid-transfer, and `pendingBusWriteResponses` positive when a transfer starts (it is not initialised in the code; the runs start with it at most zero).
- DmaControllers.DmaController.ScheduleReadsForBuffer: requires the buffer index and the words buffered within their bounds, where the unsigned subtractions of the code do not wrap; `DmaRuns.BuffersTheSource` proves those bounds for every run.
- DmaInPlace.CopiesInPlace: neither end wraps around the 32-bit address space.
- A write to the DONE register during a run, and programmers of the DMA other than the accelerator.
- EndToEnd.Accelerate: square operands only, as the fetch of B supports no others in general; the packets are taken to be delivered, although the accelerator pops a request even when the push fails.
- SystolicArrays.SystolicArray.RunTile: the tiles are read when the tile starts; the code reads them event by event, and nothing changes them in between.
- The burst tracker of the accelerator's SRAM: the same scheme as the data memory's, without its default of one beat.
- BurstModel.AnsweredOnce: requests of at least one beat with transaction numbers never used before, every access inside the memory, as the code asserts.
- AsmProof.LineMeans: offsets below 2^31 and room for both words of a pair, as the code takes for granted.
- Emulators.Emulator.Parse: the same.
- The data image of the assembler, the splitting of lines into tokens, the parsing of registers and numbers, and labels of more than 31 characters. The name x32, which the parser lets through, indexes beyond the register array; in the model such a register reads as zero and keeps nothing.
- What writes to the accelerator's registers do, other than where they are sent; logging, traces, memory dumps, configuration and build files.
