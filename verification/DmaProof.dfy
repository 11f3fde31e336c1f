/** What the DMA engine keeps over every interleaving: the write requests it has made are always
    the first words of the transfer in order, all of them when it reports completion. */
module DmaProof {
  import opened Words
  import opened DmaModel

  /** The source as the data memory answers word reads. */
  type Source = Word -> Word

  /** The first `n` words of the transfer, each read at its source and due at its destination. */
  function Transfer(cfg: Config, m: Source, n: nat): seq<WriteReq>
    requires cfg.Valid()
  {
    seq(n, g requires 0 <= g => WriteReq(cfg.DstAddr(g), m(cfg.SrcAddr(g))))
  }

  /** The buffer holds the words that follow those already written. */
  predicate Buffered(m: Source, s: Dma)
    requires Shape(s)
  {
    s.bufferIndex <= CAPACITY &&
    forall i :: 0 <= i < s.bufferIndex ==> s.buffer[i] == m(s.cfg.SrcAddr(s.transferred + i))
  }

  predicate Invariant(m: Source, s: Dma) {
    && Shape(s) && s.transferred <= s.cfg.TotalWords()
    && s.written == Transfer(s.cfg, m, s.transferred)
    && (s.done <==> s.phase == Idle) && (s.enabled <==> s.phase != Idle)
    && s.pendingReads == (if s.asked.Some? then 1 else 0)
    && match s.phase
       case Idle => s.transferred == s.cfg.TotalWords() && s.job == NoJob && s.asked == None && s.pendingWrites <= 0 &&
                    s.bufferIndex == 0 && s.toBuffer == s.transferred
       case Reading =>
         && Buffered(m, s) && s.pendingWrites <= 0
         && s.toBuffer == s.transferred + s.bufferIndex < s.cfg.TotalWords() && s.bufferIndex < CAPACITY
         && (if s.job == NoJob then s.asked == Some(ReadRequests(s, ReadChunk(WordsToRead(s))))
           else s.job == ReadJob && s.asked == None)
       case Writing =>
         && s.asked == None && 0 < s.bufferIndex <= CAPACITY
         && if s.job == NoJob then s.toBuffer == s.transferred
            else
              && s.job == WriteJob && Buffered(m, s) && s.pendingWrites <= 0
              && s.toBuffer == s.transferred + s.bufferIndex <= s.cfg.TotalWords()
              && (s.bufferIndex == CAPACITY || s.toBuffer == s.cfg.TotalWords())
  }

  /** A response carries the source words its requests asked for. */
  predicate Faithful(m: Source, s: Dma, st: Step) {
    st.ReadResponse? && s.asked.Some? && |st.data| == |s.asked.value| ==>
      forall i :: 0 <= i < |st.data| ==> st.data[i] == m(s.asked.value[i].addr)
  }

  /** Both ways the code counts words agree. */
  lemma WordCount(cfg: Config)
    requires cfg.Valid()
    ensures cfg.TotalWords() == cfg.WordsPerRow() * cfg.height && cfg.WordsPerRow() > 0 && cfg.TotalWords() > 0
  {
    assert cfg.width / 4 + (if cfg.width % 4 != 0 then 1 else 0) == cfg.WordsPerRow();
    Positive(cfg.WordsPerRow(), cfg.height);
  }

  lemma Positive(x: nat, y: nat)
    requires x > 0 && y > 0
    ensures x * y > 0
  {}

  // ---- One write phase ----

  lemma {:induction false} PacketsCarryAll(s: Dma, offset: nat)
    requires Shape(s) && offset <= s.bufferIndex <= CAPACITY
    ensures WritesOf(WritePackets(s, offset)) == WriteRequests(s, offset, s.bufferIndex - offset)
    decreases s.bufferIndex - offset
  {
    if offset < s.bufferIndex {
      var chunk := WriteChunk(s.bufferIndex - offset);
      PacketsCarryAll(s, offset + chunk);
      var ps := WritePackets(s, offset);
      assert ps[1..] == WritePackets(s, offset + chunk);
      assert WriteRequests(s, offset, s.bufferIndex - offset) ==
             WriteRequests(s, offset, chunk) + WriteRequests(s, offset + chunk, s.bufferIndex - offset - chunk);
    }
  }

  lemma WriteOutKeeps(m: Source, s: Dma, taken: nat -> bool)
    requires Shape(s) && Buffered(m, s) && 0 < s.bufferIndex && s.job == NoJob && s.phase == Writing
    requires s.asked == None && !s.done && s.enabled && s.pendingReads == 0
    requires s.toBuffer == s.transferred + s.bufferIndex <= s.cfg.TotalWords()
    requires s.written == Transfer(s.cfg, m, s.transferred)
    ensures Invariant(m, WriteOut(s, taken))
  {
    hide WritePackets, WritesOf, Chosen;
    PacketsCarryAll(s, 0);
    var n := WriteOut(s, taken);
    assert n.written == s.written + WriteRequests(s, 0, s.bufferIndex);
    assert n.written == Transfer(s.cfg, m, n.transferred);
  }

  // ---- The steps ----

  lemma ReadsKeep(m: Source, s: Dma, taken: nat -> bool)
    requires Shape(s) && Buffered(m, s) && s.pendingWrites <= 0 && s.job == NoJob && s.phase == Reading
    requires s.asked == None && !s.done && s.enabled
    requires s.toBuffer == s.transferred + s.bufferIndex < s.cfg.TotalWords() && s.bufferIndex < CAPACITY
    requires s.written == Transfer(s.cfg, m, s.transferred)
    ensures Invariant(m, ScheduleReads(s, taken))
  {
    hide Transfer;
    var loads := ReadRequests(s, ReadChunk(WordsToRead(s)));
    var n := ScheduleReads(s, taken);
    assert ReadRequests(n, ReadChunk(WordsToRead(n))) == loads;
  }

  lemma {:induction false} FillStores(buffer: seq<Word>, loads: seq<ReadReq>, data: seq<Word>, base: nat)
    requires |data| == |loads| && base + |loads| <= |buffer|
    requires forall i :: 0 <= i < |loads| ==> loads[i].index == base + i
    ensures Fill(buffer, loads, data) == buffer[..base] + data + buffer[base + |loads|..]
  {
    if loads != [] {
      var k := |loads| - 1;
      FillStores(buffer, loads[..k], data[..k], base);
      OneStored(buffer, data, base, k);
    }
  }

  lemma OneStored(buffer: seq<Word>, data: seq<Word>, base: nat, k: nat)
    requires |data| == k + 1 && base + k < |buffer|
    ensures (buffer[..base] + data[..k] + buffer[base + k..])[base + k := data[k]] ==
              buffer[..base] + data + buffer[base + k + 1..]
  {}

  lemma ResponseKeeps(m: Source, s: Dma, data: seq<Word>)
    requires Invariant(m, s) && Possible(s, ReadResponse(data)) && Faithful(m, s, ReadResponse(data))
    ensures Invariant(m, HandleRead(s, data))
  {
    ResponseBuffered(m, s, data);
    ResponseFits(m, s, data);
    hide Transfer, Fill, Buffered, ReadRequests, ReadChunk;
  }

  lemma ResponseFits(m: Source, s: Dma, data: seq<Word>)
    requires Invariant(m, s) && Possible(s, ReadResponse(data))
    ensures s.phase == Reading && 0 < |s.asked.value| <= WordsToRead(s)
    ensures s.asked == Some(ReadRequests(s, |s.asked.value|)) && s.bufferIndex + |s.asked.value| <= CAPACITY
    ensures forall i :: 0 <= i < |s.asked.value| ==> s.asked.value[i].index == s.bufferIndex + i
    ensures |Fill(s.buffer, s.asked.value, data)| == CAPACITY
  {
    hide Transfer, Fill;
    FillStores(s.buffer, s.asked.value, data, s.bufferIndex);
  }

  lemma ResponseBuffered(m: Source, s: Dma, data: seq<Word>)
    requires Invariant(m, s) && Possible(s, ReadResponse(data)) && Faithful(m, s, ReadResponse(data))
    ensures Shape(HandleRead(s, data)) && Buffered(m, HandleRead(s, data))
  {
    hide Invariant, HandleRead, Transfer, Fill, ReadRequests, ReadChunk, WordsToRead, Faithful;
    hide Config.SrcAddr, Config.TotalWords;
    ResponseFits(m, s, data);
    BufferedBefore(m, s);
    ResponseStores(s, data);
    forall k | 0 <= k < |data|
      ensures data[k] == m(s.cfg.SrcAddr(s.transferred + s.bufferIndex + k))
    {
      AskedFor(m, s, data, k);
    }
    FilledBuffered(m, s.cfg, s.transferred, s.buffer, s.asked.value, data, s.bufferIndex);
  }

  lemma ResponseStores(s: Dma, data: seq<Word>)
    requires Shape(s) && Possible(s, ReadResponse(data))
    ensures var n := HandleRead(s, data);
            && n.buffer == Fill(s.buffer, s.asked.value, data) && n.bufferIndex == s.bufferIndex + |data|
            && n.transferred == s.transferred && n.cfg == s.cfg
  {
    hide Fill;
  }

  lemma BufferedBefore(m: Source, s: Dma)
    requires Invariant(m, s) && s.phase == Reading
    ensures Shape(s) && Buffered(m, s) && s.bufferIndex < CAPACITY
  {
    hide Transfer, Buffered;
  }

  lemma FilledBuffered(m: Source, cfg: Config, t: nat, buffer: seq<Word>, loads: seq<ReadReq>, data: seq<Word>, b: nat)
    requires cfg.Valid() && |data| == |loads| && b + |loads| <= |buffer|
    requires forall i :: 0 <= i < |loads| ==> loads[i].index == b + i
    requires forall i :: 0 <= i < b ==> buffer[i] == m(cfg.SrcAddr(t + i))
    requires forall k :: 0 <= k < |data| ==> data[k] == m(cfg.SrcAddr(t + b + k))
    ensures |Fill(buffer, loads, data)| == |buffer|
    ensures forall i :: 0 <= i < b + |loads| ==> Fill(buffer, loads, data)[i] == m(cfg.SrcAddr(t + i))
  {
    hide Fill, Config.SrcAddr;
    FillStores(buffer, loads, data, b);
    forall i | 0 <= i < b + |loads|
      ensures Fill(buffer, loads, data)[i] == m(cfg.SrcAddr(t + i))
    {
      Spliced(buffer, data, b, i);
      if i >= b { assert t + i == t + b + (i - b); }
    }
  }

  lemma Spliced(buffer: seq<Word>, data: seq<Word>, base: nat, i: nat)
    requires i < base + |data| <= |buffer|
    ensures (buffer[..base] + data + buffer[base + |data|..])[i] == if i < base then buffer[i] else data[i - base]
  {}

  lemma AskedFor(m: Source, s: Dma, data: seq<Word>, k: nat)
    requires s.cfg.Valid() && s.asked.Some? && k < |data| == |s.asked.value| && Faithful(m, s, ReadResponse(data))
    requires s.asked.value == ReadRequests(s, |s.asked.value|)
    ensures data[k] == m(s.cfg.SrcAddr(s.transferred + s.bufferIndex + k))
  {}

  lemma WriteResponseKeeps(m: Source, s: Dma, taken: nat -> bool)
    requires Invariant(m, s)
    ensures Invariant(m, HandleWrite(s, taken))
  {
    hide Transfer, ReadChunk;
    var n := s.(pendingWrites := s.pendingWrites - 1);
    if n.pendingWrites == 0 {
      var e := n.(buffer := Cleared(n.buffer, n.bufferIndex), bufferIndex := 0);
      if e.transferred < e.cfg.TotalWords() {
        ReadsKeep(m, e.(phase := Reading), taken);
      }
    } else if s.phase == Reading && s.job == NoJob {
      assert ReadRequests(n, ReadChunk(WordsToRead(n))) == ReadRequests(s, ReadChunk(WordsToRead(s)));
    }
  }

  lemma JobKeeps(m: Source, s: Dma, taken: nat -> bool)
    requires Invariant(m, s) && s.job != NoJob
    ensures Invariant(m, Next(s, RunJob(taken)))
  {
    hide Transfer, ReadChunk, ScheduleReads, WriteOut;
    var n := s.(job := NoJob);
    if s.job == ReadJob {
      ReadsKeep(m, n, taken);
    } else {
      WriteOutKeeps(m, n, taken);
    }
  }

  lemma RetryKeeps(m: Source, s: Dma, took: bool)
    requires Invariant(m, s)
    ensures Invariant(m, Next(s, Retry(took)))
  {
    hide Transfer, ReadChunk;
    var n := Next(s, Retry(took));
    if s.phase == Reading && s.job == NoJob {
      assert ReadRequests(n, ReadChunk(WordsToRead(n))) == ReadRequests(s, ReadChunk(WordsToRead(s)));
    }
  }

  lemma StepKeeps(m: Source, s: Dma, st: Step)
    requires Invariant(m, s) && Possible(s, st) && Faithful(m, s, st)
    ensures Invariant(m, Next(s, st))
  {
    match st {
      case ReadResponse(data) => ResponseKeeps(m, s, data);
      case RunJob(taken) => JobKeeps(m, s, taken);
      case WriteResponse(taken) => WriteResponseKeeps(m, s, taken);
      case Retry(took) => RetryKeeps(m, s, took);
    }
  }

  /** Enabling a resting engine. */
  lemma EnableStarts(m: Source, s: Dma, cfg: Config, taken: bool)
    requires |s.buffer| == CAPACITY && cfg.Valid() && s.pendingWrites <= 0 && s.asked == None
    ensures Invariant(m, Enable(s, cfg, taken))
  {
    WordCount(cfg);
    var n := s.(cfg := cfg, enabled := true, done := false, phase := Reading, job := NoJob,
                transferred := 0, toBuffer := 0, bufferIndex := 0, written := []);
    assert n.written == Transfer(cfg, m, 0);
    ReadsKeep(m, n, Always(taken));
  }
}
