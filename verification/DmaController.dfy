/** The DMA controller as it runs: its registers, its word buffer and its request queue, updated in
    place. Every method is one step of the engine in `DmaModel`. */
module DmaControllers {
  import opened Words
  import opened DmaModel
  import opened DmaProof

  // ---- Packing words into bursts ----

  /** Sub-packets of the first `k` words. */
  function Total(sub: nat -> int, k: nat): int {
    if k == 0 then 0 else Total(sub, k - 1) + sub(k - 1)
  }

  predicate BurstSize(n: int) { n == 1 || n == 2 || n == 4 }

  lemma {:induction false} TotalGrows(sub: nat -> int, i: nat, j: nat)
    requires i <= j && forall k: nat :: k < j ==> sub(k) >= 0
    ensures Total(sub, i) <= Total(sub, j)
  {
    if i < j { TotalGrows(sub, i, j - 1); }
  }

  /** The longest prefix of `words` words, each needing one or two sub-packets, that fills a burst of
      one, two or four. */
  method LongestBurst(sub: nat -> int, words: nat) returns (r: nat)
    requires words > 0 && forall i: nat :: i < words ==> sub(i) == 1 || sub(i) == 2
    ensures 1 <= r <= words && BurstSize(Total(sub, r))
    ensures forall k :: r < k <= words ==> !BurstSize(Total(sub, k))
  {
    var count, best, i := 0, 0, 0;
    assert Total(sub, 1) == sub(0);
    while i < words
      invariant i <= words && best <= i && count == Total(sub, i) <= 4
      invariant best == 0 <==> i == 0
      invariant best > 0 ==> BurstSize(Total(sub, best))
      invariant forall k :: best < k <= i ==> !BurstSize(Total(sub, k))
    {
      count := count + sub(i);
      if count > 4 {
        forall k | i < k <= words
          ensures !BurstSize(Total(sub, k))
        {
          TotalGrows(sub, i + 1, k);
        }
        break;
      }
      if count == 1 || count == 2 || count == 4 { best := i + 1; }
      i := i + 1;
    }
    r := best;
  }

  lemma {:induction false} Ones(sub: nat -> int, k: nat)
    requires forall i: nat :: i < k ==> sub(i) == 1
    ensures Total(sub, k) == k
  {
    if k > 0 { Ones(sub, k - 1); }
  }

  /** With one sub-packet for every word the burst is the largest of one, two or four that fits. */
  lemma WholeWords(sub: nat -> int, words: nat, r: nat)
    requires words > 0 && forall i: nat :: i < words ==> sub(i) == 1
    requires 1 <= r <= words && BurstSize(Total(sub, r)) && forall k :: r < k <= words ==> !BurstSize(Total(sub, k))
    ensures r == WriteChunk(words)
  {
    Ones(sub, r);
    if words >= 2 { Ones(sub, 2); }
    if words >= 4 { Ones(sub, 4); }
  }

  /** The column of a word never reaches the words per row: no word is ever split. */
  lemma NeverPartial(cfg: Config, g: nat)
    requires cfg.Valid()
    ensures cfg.Col(g) < cfg.WordsPerRow() && SubPackets(cfg, g) == 1
  {}

  class DmaController {
    var srcReg: Word
    var dstReg: Word
    var sizeReg: Word
    var enabled: bool
    var done: bool
    var cfg: Config
    var phase: Phase
    var job: Job
    var transferred: nat
    var toBuffer: nat
    var bufferIndex: nat
    const buffer: array<Word>
    var pendingReads: int
    var pendingWrites: int
    var sent: seq<Packet>
    var queue: seq<Packet>
    ghost var asked: Option<seq<ReadReq>>
    ghost var written: seq<WriteReq>

    ghost predicate Valid()
      reads this
    {
      buffer.Length == CAPACITY && cfg.Valid() && bufferIndex <= CAPACITY && toBuffer <= cfg.TotalWords()
    }

    ghost function State(): Dma
      reads this, buffer
    {
      Dma(cfg, phase, job, enabled, done, transferred, toBuffer, bufferIndex, buffer[..],
          pendingReads, pendingWrites, asked, written, sent, queue)
    }

    constructor (cfg: Config, pendingWrites: int)
      requires cfg.Valid()
      ensures Valid() && fresh(buffer) && phase == Idle && job == NoJob && asked == None && sent == [] && queue == []
      ensures this.pendingWrites == pendingWrites
    {
      srcReg, dstReg, sizeReg, enabled, done := 0, 0, 0, false, false;
      this.cfg, phase, job := cfg, Idle, NoJob;
      transferred, toBuffer, bufferIndex, pendingReads, this.pendingWrites := 0, 0, 0, 0, pendingWrites;
      sent, queue, asked, written := [], [], None, [];
      buffer := new Word[CAPACITY](_ => 0);
    }

    // ---- Registers ----

    method ReadMmio(addr: Word) returns (data: Option<Word>)
      ensures addr % 0x40 == 0x0 ==> data == Some(if enabled then 1 else 0)
      ensures addr % 0x40 == 0x4 ==> data == Some(srcReg)
      ensures addr % 0x40 == 0x8 ==> data == Some(dstReg)
      ensures addr % 0x40 == 0xC ==> data == Some(sizeReg)
      ensures addr % 0x40 == 0x14 ==> data == Some(if done then 1 else 0)
      ensures data == None <==> addr % 0x40 !in {0x0, 0x4, 0x8, 0xC, 0x14}
    {
      match addr % 0x40 {
        case 0x0 => data := Some(if enabled then 1 else 0);
        case 0x4 => data := Some(srcReg);
        case 0x8 => data := Some(dstReg);
        case 0xC => data := Some(sizeReg);
        case 0x14 => data := Some(if done then 1 else 0);
        case _ => data := None;
      }
    }

    /** A register write. An odd value to the enable register starts a transfer with what the other
        registers hold; a write to the done register clears it. */
    method WriteMmio(addr: Word, data: Word, taken: bool)
      requires Valid()
      modifies this
      ensures Valid()
      ensures State() ==
              if addr % 0x40 == 0x0 && data % 2 == 1
              then Enable(old(State()), Decode(old(srcReg), old(dstReg), old(sizeReg)), taken)
              else if addr % 0x40 == 0x14 then old(State()).(done := false)
              else old(State())
      ensures srcReg == if addr % 0x40 == 0x4 then data else old(srcReg)
      ensures dstReg == if addr % 0x40 == 0x8 then data else old(dstReg)
      ensures sizeReg == if addr % 0x40 == 0xC then data else old(sizeReg)
    {
      match addr % 0x40 {
        case 0x0 => if data % 2 == 1 { InitializedTransaction(taken); }
        case 0x4 => srcReg := data;
        case 0x8 => dstReg := data;
        case 0xC => sizeReg := data;
        case 0x14 => done := false;
        case _ =>
      }
    }

    method InitializedTransaction(taken: bool)
      requires Valid()
      modifies this`cfg, this`phase, this`job, this`done, this`enabled, this`toBuffer, this`bufferIndex, this`sent
      modifies this`queue, this`pendingReads, this`pendingWrites, this`asked, this`written, this`transferred
      ensures Valid() && State() == Enable(old(State()), Decode(old(srcReg), old(dstReg), old(sizeReg)), taken)
    {
      hide ScheduleReads, Decode;
      Reset(Decode(srcReg, dstReg, sizeReg));
      ScheduleReadsForBuffer(Always(taken));
    }

    method Reset(c: Config)
      requires Valid() && c.Valid()
      modifies this`cfg, this`phase, this`job, this`done, this`enabled, this`toBuffer, this`bufferIndex
      modifies this`written, this`transferred
      ensures Valid()
      ensures State() == old(State()).(cfg := c, enabled := true, done := false, phase := Reading, job := NoJob,
                                                  transferred := 0, toBuffer := 0, bufferIndex := 0, written := [])
    {
      WordCount(c);
      cfg, enabled, done, phase, job := c, true, false, Reading, NoJob;
      transferred, toBuffer, bufferIndex, written := 0, 0, 0, [];
    }

    method TransactionComplete()
      requires Valid()
      modifies this`phase, this`done, this`enabled
      ensures Valid() && State() == Complete(old(State()))
    {
      phase, done, enabled := Idle, true, false;
    }

    /** The bus takes the packet, or the queue does. */
    method Offer(p: Packet, taken: bool)
      requires Valid()
      modifies this`sent, this`queue
      ensures Valid() && State() == Push(old(State()), p, taken)
    {
      if taken { sent := sent + [p]; } else { queue := queue + [p]; }
    }

    /** Tries the request at the head of the queue again. */
    method TrySendPacket(took: bool)
      requires Valid()
      modifies this`sent, this`queue
      ensures Valid() && State() == Next(old(State()), Retry(took))
    {
      if queue != [] && took { sent, queue := sent + [queue[0]], queue[1..]; }
    }

    // ---- Reading ----

    method ScheduleReadsForBuffer(taken: nat -> bool)
      requires Valid() && phase == Reading
      modifies this`phase, this`done, this`enabled, this`sent, this`queue, this`pendingReads, this`pendingWrites
      modifies this`asked, this`written, this`transferred
      ensures Valid() && State() == ScheduleReads(old(State()), taken)
    {
      hide WriteOut, ReadRequests, ReadChunk, Config.TotalWords;
      var space, left := CAPACITY - bufferIndex, cfg.TotalWords() - toBuffer;
      var words := Min(space, left);
      if words == 0 {
        if toBuffer >= cfg.TotalWords() {
          TransactionComplete();
        } else {
          phase := Writing;
          IssueWrites(taken);
        }
        return;
      }
      IssueReads(words, taken(0));
    }

    /** Asks for one burst out of `words` words. */
    method IssueReads(words: nat, taken: bool)
      requires Valid() && words > 0
      modifies this`sent, this`queue, this`pendingReads, this`asked
      ensures Valid()
      ensures var loads := ReadRequests(old(State()), ReadChunk(words));
              State() == Push(old(State()), ReadBurst(loads), taken).(pendingReads := 1, asked := Some(loads))
    {
      var chunk := Min(4, words);
      if chunk == 3 { chunk := 2; }
      var loads := BuildReads(chunk);
      Offer(ReadBurst(loads), taken);
      pendingReads, asked := 1, Some(loads);
    }

    method BuildReads(chunk: nat) returns (loads: seq<ReadReq>)
      requires Valid()
      ensures loads == ReadRequests(State(), chunk)
    {
      loads := [];
      for i := 0 to chunk
        invariant |loads| == i && forall k :: 0 <= k < i ==> loads[k] == ReadRequests(State(), chunk)[k]
      {
        loads := loads + [ReadReq(cfg.SrcAddr(transferred + bufferIndex + i), bufferIndex + i)];
      }
    }

    /** Stores the beats of a response where they say. */
    method Absorb(beats: seq<(nat, Word)>, ghost loads: seq<ReadReq>, ghost data: seq<Word>)
      requires buffer.Length == CAPACITY && |beats| == |data| == |loads|
      requires forall i :: 0 <= i < |beats| ==> beats[i] == (loads[i].index, data[i])
      modifies buffer
      ensures buffer[..] == Fill(old(buffer[..]), loads, data)
    {
      hide Fill;
      ghost var was := buffer[..];
      FillNone(was);
      for i := 0 to |beats|
        invariant buffer[..] == Fill(was, loads[..i], data[..i])
      {
        FillOne(was, loads, data, i);
        if beats[i].0 < CAPACITY { buffer[beats[i].0] := beats[i].1; }
      }
      assert loads[..|beats|] == loads && data[..|beats|] == data;
    }

    /** The response to the outstanding burst: each beat carries the buffer index of its request. */
    method HandleReadResponse(beats: seq<(nat, Word)>, ghost data: seq<Word>)
      requires Valid() && asked.Some? && |beats| == |data| == |asked.value|
      requires forall i :: 0 <= i < |beats| ==> beats[i] == (asked.value[i].index, data[i])
      requires bufferIndex + |beats| <= CAPACITY && toBuffer + |beats| <= cfg.TotalWords()
      modifies this`pendingReads, this`bufferIndex, this`toBuffer, this`phase, this`job, this`asked, buffer
      ensures Valid() && State() == HandleRead(old(State()), data)
    {
      hide Fill, Config.TotalWords;
      Absorb(beats, asked.value, data);
      CountIn(|beats|);
    }

    /** Counts the words of a response and schedules what follows. */
    method CountIn(n: nat)
      requires Valid() && bufferIndex + n <= CAPACITY && toBuffer + n <= cfg.TotalWords()
      modifies this`pendingReads, this`bufferIndex, this`toBuffer, this`phase, this`job, this`asked
      ensures Valid() && pendingReads == old(pendingReads) - 1 && asked == None
      ensures bufferIndex == old(bufferIndex) + n && toBuffer == old(toBuffer) + n
      ensures bufferIndex < CAPACITY && toBuffer < cfg.TotalWords() ==> job == ReadJob && phase == old(phase)
      ensures !(bufferIndex < CAPACITY && toBuffer < cfg.TotalWords()) ==> job == WriteJob && phase == Writing
    {
      pendingReads := pendingReads - 1;
      asked := None;
      bufferIndex, toBuffer := bufferIndex + n, toBuffer + n;
      if CAPACITY - bufferIndex > 0 && cfg.TotalWords() - toBuffer > 0 {
        job := ReadJob;
      } else {
        phase, job := Writing, WriteJob;
      }
    }

    // ---- Writing ----

    method ScheduleWritesFromBuffer(taken: nat -> bool)
      requires Valid()
      modifies this
      ensures Valid() && State() == ScheduleWrites(old(State()), taken)
    {
      if bufferIndex == 0 {
        if transferred >= cfg.TotalWords() {
          TransactionComplete();
        } else {
          phase := Reading;
          ScheduleReadsForBuffer(taken);
        }
        return;
      }
      IssueWrites(taken);
    }

    /** One write burst; a refused one is counted. */
    method IssueBurst(stores: seq<WriteReq>, taken: bool)
      modifies this`sent, this`queue, this`pendingWrites, this`written
      ensures sent == old(sent) + (if taken then [WriteBurst(stores)] else [])
      ensures queue == old(queue) + (if taken then [] else [WriteBurst(stores)])
      ensures pendingWrites == old(pendingWrites) + (if taken then 0 else 1)
      ensures written == old(written) + stores
    {
      if taken {
        sent := sent + [WriteBurst(stores)];
      } else {
        queue := queue + [WriteBurst(stores)];
        pendingWrites := pendingWrites + 1;
      }
      written := written + stores;
    }

    /** What has gone out is `all` but for `rest`, after `k` pushes. */
    ghost predicate Issued(s: Dma, all: seq<Packet>, rest: seq<Packet>, taken: nat -> bool, k: nat)
      reads this
    {
      && sent + Chosen(rest, taken, k, true) == s.sent + Chosen(all, taken, 0, true)
      && queue + Chosen(rest, taken, k, false) == s.queue + Chosen(all, taken, 0, false)
      && pendingWrites + |Chosen(rest, taken, k, false)| == |Chosen(all, taken, 0, false)|
      && written + WritesOf(rest) == s.written + WritesOf(all)
    }

    /** The buffer and its place in the transfer are those of `s`. */
    ghost predicate Buffers(s: Dma)
      reads this, buffer
    {
      Shape(s) && s.cfg == cfg && s.transferred == transferred && s.bufferIndex == bufferIndex && s.buffer == buffer[..]
    }

    /** One round of the loop over bursts. */
    method IssueNext(offset: nat, pushes: nat, taken: nat -> bool, ghost s: Dma,
                     ghost all: seq<Packet>) returns (chunk: nat)
      requires Valid() && Buffers(s) && offset < bufferIndex && Issued(s, all, WritePackets(s, offset), taken, pushes)
      modifies this`sent, this`queue, this`pendingWrites, this`written
      ensures 1 <= chunk <= bufferIndex - offset && Issued(s, all, WritePackets(s, offset + chunk), taken, pushes + 1)
    {
      hide Chosen, WritesOf, WritePackets, WriteRequests, WriteChunk;
      chunk := WriteChunkCalculation(offset, bufferIndex - offset);
      var stores := CreateWriteRequestsForChunk(offset, chunk);
      SameRequests(State(), s, offset, chunk);
      FirstPacket(s, offset, taken, pushes);
      IssueBurst(stores, taken(pushes));
    }

    /** One write phase: the whole buffer goes out, burst after burst. */
    method IssueWrites(taken: nat -> bool)
      requires Valid()
      modifies this`sent, this`queue, this`pendingWrites, this`written, this`transferred
      ensures Valid() && State() == WriteOut(old(State()), taken)
    {
      hide Chosen, WritesOf, WritePackets;
      ghost var s, all := State(), WritePackets(State(), 0);
      pendingWrites := 0;
      var offset, pushes := 0, 0;
      while offset < bufferIndex
        modifies this`sent, this`queue, this`pendingWrites, this`written
        invariant offset <= bufferIndex && Issued(s, all, WritePackets(s, offset), taken, pushes)
      {
        var chunk := IssueNext(offset, pushes, taken, s, all);
        offset, pushes := offset + chunk, pushes + 1;
      }
      NoPackets(s, offset, taken, pushes);
      transferred := transferred + bufferIndex;
    }

    method WriteChunkCalculation(offset: nat, words: nat) returns (r: nat)
      requires Valid() && words > 0
      ensures r == WriteChunk(words) && 1 <= r <= words
    {
      var c, base := cfg, transferred + offset;
      var sub: nat -> int := (i: nat) => if c.Valid() then SubPackets(c, base + i) else 1;
      forall i: nat ensures sub(i) == 1 { NeverPartial(c, base + i); }
      r := LongestBurst(sub, words);
      WholeWords(sub, words, r);
    }

    method CreateWriteRequestsForChunk(offset: nat, chunk: nat) returns (stores: seq<WriteReq>)
      requires Valid() && offset + chunk <= CAPACITY
      ensures stores == WriteRequests(State(), offset, chunk)
    {
      stores := [];
      for i := 0 to chunk
        invariant |stores| == i && forall k :: 0 <= k < i ==> stores[k] == WriteRequests(State(), offset, chunk)[k]
      {
        var g := transferred + offset + i;
        NeverPartial(cfg, g);
        if cfg.width % 4 != 0 && cfg.Col(g) == cfg.WordsPerRow() {
          assert false;
        }
        stores := stores + [WriteReq(cfg.DstAddr(g), buffer[offset + i])];
      }
    }

    method ClearBuffer()
      requires Valid()
      modifies buffer
      ensures buffer[..] == Cleared(old(buffer[..]), bufferIndex)
    {
      for i := 0 to bufferIndex
        invariant forall k :: 0 <= k < CAPACITY ==> buffer[k] == if k < i then 0 else old(buffer[k])
      {
        buffer[i] := 0;
      }
    }

    method HandleWriteCompletion(taken: nat -> bool)
      requires Valid()
      modifies this, buffer
      ensures Valid() && State() == HandleWrite(old(State()), taken)
    {
      hide ScheduleReads, DmaModel.Cleared;
      pendingWrites := pendingWrites - 1;
      if pendingWrites == 0 {
        ClearBuffer();
        bufferIndex := 0;
        if transferred >= cfg.TotalWords() {
          TransactionComplete();
        } else {
          phase := Reading;
          ScheduleReadsForBuffer(taken);
        }
      }
    }
  }

  lemma FillNone(was: seq<Word>)
    ensures Fill(was, [], []) == was
  {}

  lemma FillOne(was: seq<Word>, loads: seq<ReadReq>, data: seq<Word>, i: nat)
    requires |loads| == |data| && i < |loads|
    ensures var b := Fill(was, loads[..i], data[..i]);
            Fill(was, loads[..i + 1], data[..i + 1]) == if loads[i].index < |b| then b[loads[i].index := data[i]] else b
  {
    assert loads[..i + 1][..i] == loads[..i] && data[..i + 1][..i] == data[..i];
  }

  /** What a write carries does not depend on what has been sent. */
  lemma SameRequests(s: Dma, t: Dma, offset: nat, chunk: nat)
    requires Shape(s) && Shape(t) && offset + chunk <= CAPACITY
    requires s.cfg == t.cfg && s.transferred == t.transferred && s.buffer == t.buffer
    ensures WriteRequests(s, offset, chunk) == WriteRequests(t, offset, chunk)
  {}

  lemma FirstPacket(s: Dma, offset: nat, taken: nat -> bool, k: nat)
    requires Shape(s) && offset < s.bufferIndex <= CAPACITY
    ensures var chunk := WriteChunk(s.bufferIndex - offset);
            var ps, stores := WritePackets(s, offset), WriteRequests(s, offset, chunk);
            && ps != [] && ps[1..] == WritePackets(s, offset + chunk)
            && WritesOf(ps) == stores + WritesOf(ps[1..])
            && Chosen(ps, taken, k, taken(k)) == [WriteBurst(stores)] + Chosen(ps[1..], taken, k + 1, taken(k))
            && Chosen(ps, taken, k, !taken(k)) == Chosen(ps[1..], taken, k + 1, !taken(k))
  {
    var chunk := WriteChunk(s.bufferIndex - offset);
    assert WritePackets(s, offset) == [WriteBurst(WriteRequests(s, offset, chunk))] + WritePackets(s, offset + chunk);
  }

  lemma NoPackets(s: Dma, offset: nat, taken: nat -> bool, k: nat)
    requires Shape(s) && s.bufferIndex <= CAPACITY && offset >= s.bufferIndex
    ensures WritePackets(s, offset) == [] && WritesOf([]) == [] && Chosen([], taken, k, true) == []
    ensures Chosen([], taken, k, false) == []
  {}
}
