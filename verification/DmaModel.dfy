/** The DMA engine as a state machine over values. Whether the bus register takes a packet when it
    is pushed is a free choice of every step, and so is when a response arrives. */
module DmaModel {
  import opened Words

  const CAPACITY := 256

  /** A transfer, decoded from the address registers and the packed size register. */
  datatype Config = Config(src: Word, dst: Word, width: nat, height: nat, srcStride: nat, dstStride: nat) {
    predicate Valid() { 1 <= width <= 256 && 1 <= height <= 256 && srcStride < 256 && dstStride < 256 }

    function WordsPerRow(): nat { (width + 3) / 4 }

    /** Rows are rounded up to whole words. */
    function TotalWords(): nat { (width / 4 + (if width % 4 != 0 then 1 else 0)) * height }

    function Row(g: nat): nat
      requires WordsPerRow() > 0
    {
      g / WordsPerRow()
    }

    function Col(g: nat): nat
      requires WordsPerRow() > 0
    {
      g % WordsPerRow()
    }

    /** Byte address of word `g` of the transfer at either end, as 32-bit arithmetic forms it. */
    function SrcAddr(g: nat): Word
      requires WordsPerRow() > 0
    {
      (src + Row(g) * srcStride + Col(g) * 4) % WORDS
    }

    function DstAddr(g: nat): Word
      requires WordsPerRow() > 0
    {
      (dst + Row(g) * dstStride + Col(g) * 4) % WORDS
    }
  }

  function Decode(src: Word, dst: Word, size: Word): (c: Config)
    ensures c.Valid() && c.src == src && c.dst == dst
    ensures size == ((c.srcStride * 256 + c.dstStride) * 256 + (c.width - 1)) * 256 + (c.height - 1)
  {
    SizeBytes(size);
    Config(src, dst, size / 0x100 % 0x100 + 1, size % 0x100 + 1, size / 0x100_0000 % 0x100, size / 0x1_0000 % 0x100)
  }

  lemma SizeBytes(size: Word)
    ensures var high, low := size / 0x100_0000 % 0x100 * 256 + size / 0x1_0000 % 0x100, size / 0x100 % 0x100;
            size == (high * 256 + low) * 256 + size % 0x100
  {
    var b := size / 0x100;
    var c := b / 0x100;
    assert c == size / 0x1_0000 && c / 0x100 == size / 0x100_0000 < 0x100;
  }

  datatype ReadReq = ReadReq(addr: Word, index: nat)
  datatype WriteReq = WriteReq(addr: Word, data: Word)
  datatype Packet = ReadBurst(loads: seq<ReadReq>) | WriteBurst(stores: seq<WriteReq>)

  datatype Phase = Idle | Reading | Writing

  /** An event scheduled for the next tick. */
  datatype Job = NoJob | ReadJob | WriteJob

  /** `asked` is the read burst without a response yet, `written` every write request made so far in
      order, `sent` the packets the bus has taken and `queue` those it refused, in order. */
  datatype Dma = Dma(
    cfg: Config, phase: Phase, job: Job, enabled: bool, done: bool,
    transferred: nat, toBuffer: nat, bufferIndex: nat, buffer: seq<Word>,
    pendingReads: int, pendingWrites: int,
    asked: Option<seq<ReadReq>>, written: seq<WriteReq>, sent: seq<Packet>, queue: seq<Packet>)

  predicate Shape(s: Dma) {
    s.cfg.Valid() && |s.buffer| == CAPACITY
  }

  // ---- Starting and finishing ----

  /** The bus takes every push of the step, or none. */
  function Always(taken: bool): nat -> bool { (k: nat) => taken }

  /** ENABLE written: decode the registers, reset the counters, schedule the first reads. */
  function Enable(s: Dma, cfg: Config, taken: bool): Dma
    requires |s.buffer| == CAPACITY && cfg.Valid()
  {
    ScheduleReads(s.(cfg := cfg, enabled := true, done := false, phase := Reading, job := NoJob,
                     transferred := 0, toBuffer := 0, bufferIndex := 0, written := []), Always(taken))
  }

  function Complete(s: Dma): Dma {
    s.(phase := Idle, done := true, enabled := false)
  }

  /** The register of the bus takes the packet or it is queued. */
  function Push(s: Dma, p: Packet, taken: bool): Dma {
    if taken then s.(sent := s.sent + [p]) else s.(queue := s.queue + [p])
  }

  // ---- Reading ----

  /** Bursts come in one, two or four words. */
  function ReadChunk(words: nat): (c: nat)
    requires words > 0
    ensures (c == 1 || c == 2 || c == 4) && c <= words && (words < 2 * c || c == 4)
  {
    var c := Min(4, words);
    if c == 3 then 2 else c
  }

  function ReadRequests(s: Dma, chunk: nat): seq<ReadReq>
    requires s.cfg.Valid()
  {
    seq(chunk, i requires 0 <= i => ReadReq(s.cfg.SrcAddr(s.transferred + s.bufferIndex + i), s.bufferIndex + i))
  }

  function WordsToRead(s: Dma): int
    requires s.cfg.Valid()
  {
    Min(CAPACITY - s.bufferIndex, s.cfg.TotalWords() - s.toBuffer)
  }

  function ScheduleReads(s: Dma, taken: nat -> bool): Dma
    requires Shape(s)
  {
    var words := WordsToRead(s);
    if words <= 0 then
      if s.toBuffer >= s.cfg.TotalWords() then Complete(s) else WriteOut(s.(phase := Writing), taken)
    else
      var loads := ReadRequests(s, ReadChunk(words));
      Push(s, ReadBurst(loads), taken(0)).(pendingReads := 1, asked := Some(loads))
  }

  /** Stores the words of a response where their requests said. */
  function Fill(buffer: seq<Word>, loads: seq<ReadReq>, data: seq<Word>): seq<Word>
    requires |data| == |loads|
  {
    if loads == [] then buffer
    else
      var k := |loads| - 1;
      var b := Fill(buffer, loads[..k], data[..k]);
      if loads[k].index < |b| then b[loads[k].index := data[k]] else b
  }

  /** The response to the outstanding read burst. */
  function HandleRead(s: Dma, data: seq<Word>): Dma
    requires Shape(s) && s.asked.Some? && |data| == |s.asked.value|
  {
    var loads := s.asked.value;
    var n := s.(buffer := Fill(s.buffer, loads, data), pendingReads := s.pendingReads - 1, asked := None,
                bufferIndex := s.bufferIndex + |loads|, toBuffer := s.toBuffer + |loads|);
    if n.bufferIndex < CAPACITY && n.toBuffer < n.cfg.TotalWords() then n.(job := ReadJob)
    else n.(phase := Writing, job := WriteJob)
  }

  // ---- Writing ----

  /** How many sub-packets word `g` needs. The column never reaches the words per row, so the
      partial-word case is dead and every word is one full write. */
  function SubPackets(cfg: Config, g: nat): nat
    requires cfg.Valid()
  {
    if cfg.Col(g) == cfg.WordsPerRow() && cfg.width % 4 != 0 then (if cfg.width % 4 == 3 then 2 else 1) else 1
  }

  /** The longest burst of one, two or four words out of `words`. */
  function WriteChunk(words: nat): nat
    requires words > 0
  {
    if words >= 4 then 4 else if words >= 2 then 2 else 1
  }

  function WriteRequests(s: Dma, offset: nat, chunk: nat): seq<WriteReq>
    requires Shape(s) && offset + chunk <= CAPACITY
  {
    seq(chunk, i requires 0 <= i < chunk => WriteReq(s.cfg.DstAddr(s.transferred + offset + i), s.buffer[offset + i]))
  }

  /** The packets of one write phase from `offset` on. */
  function WritePackets(s: Dma, offset: nat): seq<Packet>
    requires Shape(s) && s.bufferIndex <= CAPACITY
    decreases s.bufferIndex - offset
  {
    if offset >= s.bufferIndex then []
    else
      var chunk := WriteChunk(s.bufferIndex - offset);
      [WriteBurst(WriteRequests(s, offset, chunk))] + WritePackets(s, offset + chunk)
  }

  /** Those of `ps` that the bus takes, or refuses, when they are pushed one after the other, the
      first being push number `k`. */
  function Chosen(ps: seq<Packet>, taken: nat -> bool, k: nat, want: bool): seq<Packet> {
    if ps == [] then []
    else (if taken(k) == want then [ps[0]] else []) + Chosen(ps[1..], taken, k + 1, want)
  }

  function WritesOf(ps: seq<Packet>): seq<WriteReq> {
    if ps == [] then [] else (if ps[0].WriteBurst? then ps[0].stores else []) + WritesOf(ps[1..])
  }

  /** A write phase: every buffered word goes out at once; the pending count is reset and then
      counts the refused pushes only. */
  function WriteOut(s: Dma, taken: nat -> bool): Dma
    requires Shape(s)
  {
    if s.bufferIndex > CAPACITY then s
    else
      var ps := WritePackets(s, 0);
      s.(sent := s.sent + Chosen(ps, taken, 0, true), queue := s.queue + Chosen(ps, taken, 0, false),
         pendingWrites := |Chosen(ps, taken, 0, false)|,
         written := s.written + WritesOf(ps), transferred := s.transferred + s.bufferIndex)
  }

  function ScheduleWrites(s: Dma, taken: nat -> bool): Dma
    requires Shape(s)
  {
    if s.bufferIndex == 0 then
      if s.transferred >= s.cfg.TotalWords() then Complete(s) else ScheduleReads(s.(phase := Reading), taken)
    else WriteOut(s, taken)
  }

  function Cleared(buffer: seq<Word>, upto: nat): seq<Word> {
    seq(|buffer|, i requires 0 <= i < |buffer| => if i < upto then 0 else buffer[i])
  }

  /** A write response, whichever packet it answers. */
  function HandleWrite(s: Dma, taken: nat -> bool): Dma
    requires Shape(s)
  {
    var n := s.(pendingWrites := s.pendingWrites - 1);
    if n.pendingWrites != 0 then n
    else
      var e := n.(buffer := Cleared(n.buffer, n.bufferIndex), bufferIndex := 0);
      if e.transferred >= e.cfg.TotalWords() then Complete(e) else ScheduleReads(e.(phase := Reading), taken)
  }

  // ---- Steps ----

  /** What can happen in a tick. The choices of the bus come with the step that pushes. */
  datatype Step =
    | ReadResponse(data: seq<Word>)
    | RunJob(taken: nat -> bool)
    | WriteResponse(taken: nat -> bool)
    | Retry(took: bool)

  predicate Possible(s: Dma, st: Step) {
    match st
    case ReadResponse(data) => s.asked.Some? && |data| == |s.asked.value|
    case RunJob(_) => s.job != NoJob
    case WriteResponse(_) => true
    case Retry(_) => true
  }

  function Next(s: Dma, st: Step): Dma
    requires Shape(s) && Possible(s, st)
  {
    match st
    case ReadResponse(data) => HandleRead(s, data)
    case RunJob(taken) =>
      if s.job == ReadJob then ScheduleReads(s.(job := NoJob), taken) else ScheduleWrites(s.(job := NoJob), taken)
    case WriteResponse(taken) => HandleWrite(s, taken)
    case Retry(took) => if s.queue != [] && took then s.(sent := s.sent + [s.queue[0]], queue := s.queue[1..]) else s
  }
}
