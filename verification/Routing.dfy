/** Where the bus and the accelerator send a request, going by the address of its first beat. */
module Routing {
  import opened Words

  const DMA_MMIO_BASE := 0xF000
  const DMA_MMIO_END := 0xF03F
  const SA_MMIO_BASE := 0x1_2000
  const SA_MMIO_END := 0x1_20F0
  const SRAM_BASE := 0x2_0000
  const SRAM_END := 0x2_8000
  const SRAM_WORDS := 8000
  const SRAM_BYTES := 4 * SRAM_WORDS

  /** The slave a packet goes to: 0 the data memory, 1 the DMA engine, 2 the accelerator. */
  function SlaveIndex(addr: Word): nat {
    if DMA_MMIO_BASE <= addr <= DMA_MMIO_END then 1
    else if SA_MMIO_BASE <= addr <= SA_MMIO_END || SRAM_BASE <= addr <= SRAM_END then 2
    else 0
  }

  /** What the accelerator does with a write request: its beats go to the SRAM, or its only beat to a
      register, or, with several beats, an assertion fails. */
  datatype Delivery = ToSram | ToRegister(offset: nat) | Refused

  /** The range taken for the SRAM has as many bytes as the SRAM has words. */
  function Dispatch(first: Word, beats: nat): Delivery {
    if SRAM_BASE <= first < SRAM_BASE + SRAM_WORDS then ToSram
    else if beats == 1 then ToRegister(first % 0x40)
    else Refused
  }

  /** Where every address is sent: the engine's registers, the accelerator's registers and its SRAM, and
      everything else to the data memory. */
  lemma Routes(addr: Word)
    ensures SlaveIndex(addr) == 1 <==> 0xF000 <= addr <= 0xF03F
    ensures SlaveIndex(addr) == 2 <==> 0x1_2000 <= addr <= 0x1_20F0 || 0x2_0000 <= addr <= 0x2_8000
    ensures SlaveIndex(addr) == 0 <==> addr < 0xF000 || 0xF03F < addr < 0x1_2000 || 0x1_20F0 < addr < 0x2_0000 ||
                                       0x2_8000 < addr
  {}

  /** What becomes of every write request: of the 32000 bytes of the SRAM the first 8000 are taken for it;
      one beat elsewhere goes to a register, several are refused. */
  lemma Dispatches(first: Word, beats: nat)
    ensures Dispatch(first, beats) == ToSram <==> 0x2_0000 <= first < 0x2_0000 + 8000
    ensures Dispatch(first, beats) == Refused <==> !(0x2_0000 <= first < 0x2_0000 + 8000) && beats != 1
    ensures Dispatch(first, beats).ToRegister? ==> Dispatch(first, beats).offset == first % 64
    ensures SRAM_BYTES == 32000
  {}

  /** A burst of words that lies within the SRAM and is routed to the accelerator reaches the SRAM if
      and only if it starts in the first quarter of it. */
  lemma ReachesSramExactly(first: Word, beats: nat)
    requires 0x2_0000 <= first && first + 4 * beats <= 0x2_0000 + 32000
    ensures SlaveIndex(first) == 2
    ensures Dispatch(first, beats) == ToSram <==> first - 0x2_0000 < 32000 / 4
  {}

  /** The word just beyond that quarter, alone in its burst, is written to the enable register. */
  lemma WordBecomesEnable()
    ensures SlaveIndex(0x2_1F40) == 2 && Dispatch(0x2_1F40, 1) == ToRegister(0) && 0x2_1F40 == 0x2_0000 + 8000
  {}
}
