/** The DMA engine over whole runs: what has been issued, how it is packed, when a phase hands over. */
module DmaRuns {
  import opened Words
  import opened DmaModel
  import opened DmaProof

  // ---- Packing and conservation ----

  /** Receivers take bursts of one, two or four requests only. */
  predicate Legal(p: Packet) {
    var n := if p.ReadBurst? then |p.loads| else |p.stores|;
    n == 1 || n == 2 || n == 4
  }

  predicate AllLegal(ps: seq<Packet>) { forall i :: 0 <= i < |ps| ==> Legal(ps[i]) }

  /** Every write request made so far is, exactly once, either with the bus or in the queue; `before`
      are those of earlier transfers. */
  predicate Conserved(before: multiset<WriteReq>, s: Dma) {
    && multiset(WritesOf(s.sent)) + multiset(WritesOf(s.queue)) == before + multiset(s.written)
    && AllLegal(s.sent) && AllLegal(s.queue)
  }

  lemma {:induction false} WritesOfSplits(a: seq<Packet>, b: seq<Packet>)
    ensures WritesOf(a + b) == WritesOf(a) + WritesOf(b)
  {
    if a == [] {
      assert a + b == b;
    } else {
      var rest, first := a[1..], if a[0].WriteBurst? then a[0].stores else [];
      WritesOfSplits(rest, b);
      assert (a + b)[1..] == rest + b;
      assert first + (WritesOf(rest) + WritesOf(b)) == (first + WritesOf(rest)) + WritesOf(b);
    }
  }

  /** The first packet goes to one of the two lists. */
  lemma ChosenHead(ps: seq<Packet>, taken: nat -> bool, k: nat)
    requires ps != []
    ensures Chosen(ps, taken, k, taken(k)) == [ps[0]] + Chosen(ps[1..], taken, k + 1, taken(k))
    ensures Chosen(ps, taken, k, !taken(k)) == Chosen(ps[1..], taken, k + 1, !taken(k))
  {}

  lemma WritesOfHead(p: Packet, ps: seq<Packet>)
    ensures WritesOf([p] + ps) == WritesOf([p]) + WritesOf(ps)
  {
    WritesOfSplits([p], ps);
  }

  lemma {:induction false} ChosenSplits(ps: seq<Packet>, taken: nat -> bool, k: nat, want: bool)
    decreases |ps|, 1
    ensures multiset(WritesOf(Chosen(ps, taken, k, want))) + multiset(WritesOf(Chosen(ps, taken, k, !want))) ==
              multiset(WritesOf(ps))
  {
    if ps == [] {
    } else {
      hide WritesOf, Chosen;
      ChosenStep(ps, taken, k);
      var b := taken(k);
      var x, y := multiset(WritesOf(Chosen(ps, taken, k, b))), multiset(WritesOf(Chosen(ps, taken, k, !b)));
      assert x + y == y + x;
      assert want == b || want == !b;
    }
  }

  lemma {:induction false} ChosenStep(ps: seq<Packet>, taken: nat -> bool, k: nat)
    requires ps != []
    decreases |ps|, 0
    ensures multiset(WritesOf(Chosen(ps, taken, k, taken(k)))) + multiset(WritesOf(Chosen(ps, taken, k, !taken(k)))) ==
              multiset(WritesOf(ps))
  {
    hide WritesOf, Chosen;
    var rest, b := ps[1..], taken(k);
    ChosenSplits(rest, taken, k + 1, b);
    ChosenHead(ps, taken, k);
    WritesOfHead(ps[0], Chosen(rest, taken, k + 1, b));
    assert [ps[0]] + rest == ps;
    WritesOfHead(ps[0], rest);
    AddedInFront(WritesOf([ps[0]]), WritesOf(Chosen(rest, taken, k + 1, b)), WritesOf(Chosen(rest, taken, k + 1, !b)),
      WritesOf(rest));
  }

  lemma AddedInFront(x: seq<WriteReq>, t: seq<WriteReq>, u: seq<WriteReq>, w: seq<WriteReq>)
    ensures multiset(t) + multiset(u) == multiset(w) ==> multiset(x + t) + multiset(u) == multiset(x + w)
  {
    assert multiset(x + t) == multiset(x) + multiset(t) && multiset(x + w) == multiset(x) + multiset(w);
  }

  lemma {:induction false} ChosenLegal(ps: seq<Packet>, taken: nat -> bool, k: nat, want: bool)
    requires AllLegal(ps)
    ensures AllLegal(Chosen(ps, taken, k, want))
  {
    hide Legal;
    if ps != [] {
      ChosenLegal(ps[1..], taken, k + 1, want);
    }
  }

  lemma {:induction false} PacketsLegal(s: Dma, offset: nat)
    requires Shape(s) && s.bufferIndex <= CAPACITY
    ensures AllLegal(WritePackets(s, offset))
    decreases s.bufferIndex - offset
  {
    if offset < s.bufferIndex { PacketsLegal(s, offset + WriteChunk(s.bufferIndex - offset)); }
  }

  lemma WriteOutConserves(before: multiset<WriteReq>, s: Dma, taken: nat -> bool)
    requires Shape(s) && s.bufferIndex <= CAPACITY && Conserved(before, s)
    ensures Conserved(before, WriteOut(s, taken))
  {
    hide WritesOf, WritePackets, Chosen, Legal;
    var ps := WritePackets(s, 0);
    PacketsLegal(s, 0);
    ChosenSplits(ps, taken, 0, true);
    ChosenLegal(ps, taken, 0, true);
    ChosenLegal(ps, taken, 0, false);
    WritesOfSplits(s.sent, Chosen(ps, taken, 0, true));
    WritesOfSplits(s.queue, Chosen(ps, taken, 0, false));
    var t, u := WritesOf(Chosen(ps, taken, 0, true)), WritesOf(Chosen(ps, taken, 0, false));
    assert multiset(t) + multiset(u) == multiset(WritesOf(ps)) by { assert !true == false; }
    BothGrow(WritesOf(s.sent), t, WritesOf(s.queue), u, before, s.written, WritesOf(ps));
  }

  lemma BothGrow(a: seq<WriteReq>, t: seq<WriteReq>, b: seq<WriteReq>, u: seq<WriteReq>,
                 before: multiset<WriteReq>, w: seq<WriteReq>, v: seq<WriteReq>)
    requires multiset(a) + multiset(b) == before + multiset(w)
    requires multiset(t) + multiset(u) == multiset(v)
    ensures multiset(a + t) + multiset(b + u) == before + multiset(w + v)
  {
    assert multiset(a + t) == multiset(a) + multiset(t) && multiset(b + u) == multiset(b) + multiset(u);
    assert multiset(w + v) == multiset(w) + multiset(v);
    Regroup(multiset(a), multiset(t), multiset(b), multiset(u));
    assert before + (multiset(w) + multiset(v)) == (before + multiset(w)) + multiset(v);
  }

  lemma Regroup(a: multiset<WriteReq>, t: multiset<WriteReq>, b: multiset<WriteReq>, u: multiset<WriteReq>)
    ensures (a + t) + (b + u) == (a + b) + (t + u)
  {}

  lemma PushReadConserves(before: multiset<WriteReq>, s: Dma, loads: seq<ReadReq>, taken: bool)
    requires Conserved(before, s) && Legal(ReadBurst(loads))
    ensures Conserved(before, Push(s, ReadBurst(loads), taken))
  {
    hide WritesOf, Legal;
    WritesOfSplits(s.sent, [ReadBurst(loads)]);
    WritesOfSplits(s.queue, [ReadBurst(loads)]);
    OneRead(loads);
  }

  lemma OneRead(loads: seq<ReadReq>)
    ensures WritesOf([ReadBurst(loads)]) == []
  {}

  lemma ReadsConserve(before: multiset<WriteReq>, s: Dma, taken: nat -> bool)
    requires Shape(s) && s.bufferIndex <= CAPACITY && Conserved(before, s)
    ensures Conserved(before, ScheduleReads(s, taken))
  {
    hide WritesOf;
    var words := WordsToRead(s);
    if words > 0 {
      PushReadConserves(before, s, ReadRequests(s, ReadChunk(words)), taken(0));
    } else if s.toBuffer < s.cfg.TotalWords() {
      WriteOutConserves(before, s.(phase := Writing), taken);
    }
  }

  lemma StepConserves(m: Source, before: multiset<WriteReq>, s: Dma, st: Step)
    requires Invariant(m, s) && Possible(s, st) && Conserved(before, s)
    ensures Conserved(before, Next(s, st))
  {
    Bounded(m, s);
    hide Invariant, Conserved, HandleRead, HandleWrite;
    match st {
      case ReadResponse(data) => ResponseConserves(before, s, data);
      case RunJob(taken) => JobConserves(before, s, taken);
      case WriteResponse(taken) => AnswerConserves(before, s, taken);
      case Retry(took) => RetryConserves(before, s, took);
    }
  }

  lemma Bounded(m: Source, s: Dma)
    requires Invariant(m, s)
    ensures Shape(s) && s.bufferIndex <= CAPACITY && (s.job == WriteJob ==> s.bufferIndex > 0)
  {
    hide Transfer;
  }

  lemma ResponseConserves(before: multiset<WriteReq>, s: Dma, data: seq<Word>)
    requires Shape(s) && Possible(s, ReadResponse(data)) && Conserved(before, s)
    ensures Conserved(before, HandleRead(s, data))
  {
    hide WritesOf, Fill, Legal;
  }

  lemma JobConserves(before: multiset<WriteReq>, s: Dma, taken: nat -> bool)
    requires Shape(s) && s.bufferIndex <= CAPACITY && s.job != NoJob && (s.job == WriteJob ==> s.bufferIndex > 0)
    requires Conserved(before, s)
    ensures Conserved(before, Next(s, RunJob(taken)))
  {
    hide WritesOf, Legal, ScheduleReads, WriteOut;
    var n := s.(job := NoJob);
    if s.job == ReadJob { ReadsConserve(before, n, taken); } else { WriteOutConserves(before, n, taken); }
  }

  lemma AnswerConserves(before: multiset<WriteReq>, s: Dma, taken: nat -> bool)
    requires Shape(s) && s.bufferIndex <= CAPACITY && Conserved(before, s)
    ensures Conserved(before, HandleWrite(s, taken))
  {
    hide WritesOf, Legal, ScheduleReads, Cleared;
    ReadsConserve(before, Cleaned(s), taken);
  }

  /** The engine about to read again after a write phase. */
  function Cleaned(s: Dma): (n: Dma)
    requires Shape(s)
    ensures Shape(n)
  {
    s.(pendingWrites := 0, buffer := Cleared(s.buffer, s.bufferIndex), bufferIndex := 0, phase := Reading)
  }

  lemma RetryConserves(before: multiset<WriteReq>, s: Dma, took: bool)
    requires Shape(s) && Conserved(before, s)
    ensures Conserved(before, Next(s, Retry(took)))
  {
    hide WritesOf, Legal;
    if s.queue != [] && took {
      WritesOfSplits(s.sent, [s.queue[0]]);
      assert [s.queue[0]] + s.queue[1..] == s.queue;
      WritesOfSplits([s.queue[0]], s.queue[1..]);
    }
  }

  // ---- Runs ----

  predicate Linked(m: Source, ss: seq<Dma>, steps: seq<Step>, i: nat)
    requires i < |steps| && |ss| == |steps| + 1
  {
    Shape(ss[i]) && Possible(ss[i], steps[i]) && Faithful(m, ss[i], steps[i]) && ss[i + 1] == Next(ss[i], steps[i])
  }

  /** A run: a resting engine is enabled for `cfg` and then takes any possible steps. */
  predicate IsRun(m: Source, rest: Dma, cfg: Config, first: bool, ss: seq<Dma>, steps: seq<Step>) {
    && |rest.buffer| == CAPACITY && cfg.Valid() && rest.pendingWrites <= 0 && rest.asked == None
    && AllLegal(rest.sent) && AllLegal(rest.queue)
    && |ss| == |steps| + 1 && ss[0] == Enable(rest, cfg, first)
    && forall i {:trigger Linked(m, ss, steps, i)} :: 0 <= i < |steps| ==> Linked(m, ss, steps, i)
  }

  function Earlier(rest: Dma): multiset<WriteReq> { multiset(WritesOf(rest.sent)) + multiset(WritesOf(rest.queue)) }

  lemma {:induction false} RunKeeps(m: Source, rest: Dma, cfg: Config, first: bool, ss: seq<Dma>, steps: seq<Step>,
                                    i: nat)
    requires IsRun(m, rest, cfg, first, ss, steps) && i < |ss|
    ensures Invariant(m, ss[i]) && Conserved(Earlier(rest), ss[i]) && ss[i].cfg == cfg
  {
    hide Invariant, Conserved, Next, Enable;
    if i == 0 {
      EnableStarts(m, rest, cfg, first);
      StartConserved(rest, cfg, first);
    } else {
      RunKeeps(m, rest, cfg, first, ss, steps, i - 1);
      assert Linked(m, ss, steps, i - 1);
      StepKeeps(m, ss[i - 1], steps[i - 1]);
      StepConserves(m, Earlier(rest), ss[i - 1], steps[i - 1]);
      CfgKept(ss[i - 1], steps[i - 1]);
    }
  }

  lemma StartConserved(rest: Dma, cfg: Config, first: bool)
    requires |rest.buffer| == CAPACITY && cfg.Valid() && AllLegal(rest.sent) && AllLegal(rest.queue)
    ensures Conserved(Earlier(rest), Enable(rest, cfg, first)) && Enable(rest, cfg, first).cfg == cfg
  {
    hide WritesOf, ScheduleReads;
    var s := rest.(cfg := cfg, enabled := true, done := false, phase := Reading, job := NoJob,
                   transferred := 0, toBuffer := 0, bufferIndex := 0, written := []);
    ReadsConserve(Earlier(rest), s, Always(first));
    CfgKeptByReads(s, Always(first));
  }

  lemma CfgKeptByReads(s: Dma, taken: nat -> bool)
    requires Shape(s)
    ensures ScheduleReads(s, taken).cfg == s.cfg
  {}

  lemma CfgKept(s: Dma, st: Step)
    requires Shape(s) && Possible(s, st)
    ensures Next(s, st).cfg == s.cfg
  {
    hide ScheduleReads, Cleared, Fill, WriteOut;
    match st {
      case RunJob(taken) =>
        var n := s.(job := NoJob);
        CfgKeptByReads(n, taken);
        CfgKeptByReads(n.(phase := Reading), taken);
        CfgKeptByWrites(n, taken);
      case WriteResponse(taken) => CfgKeptByReads(Cleaned(s), taken);
      case _ =>
    }
  }

  lemma CfgKeptByWrites(s: Dma, taken: nat -> bool)
    requires Shape(s)
    ensures WriteOut(s, taken).cfg == s.cfg
  {
    hide WritePackets, Chosen, WritesOf;
  }

  /** DMA issue order. In every state of every run, whatever the bus takes and whenever responses
      come, the write requests made are the first words of the transfer in row-major order, each
      once, with the destination address of the word and the data found at its source; they are
      all of them when the engine reports done. Each is with the bus or in the queue, in bursts of
      one, two or four, and at most one read burst is outstanding. */
  lemma IssuesTheTransfer(m: Source, rest: Dma, cfg: Config, first: bool, ss: seq<Dma>, steps: seq<Step>, i: nat)
    requires IsRun(m, rest, cfg, first, ss, steps) && i < |ss|
    ensures ss[i].transferred <= cfg.TotalWords() && ss[i].written == Transfer(cfg, m, ss[i].transferred)
    ensures ss[i].done ==> ss[i].written == Transfer(cfg, m, cfg.TotalWords())
    ensures multiset(WritesOf(ss[i].sent)) + multiset(WritesOf(ss[i].queue)) == Earlier(rest) + multiset(ss[i].written)
    ensures forall p: Packet :: p in ss[i].sent || p in ss[i].queue ==>
              match p case ReadBurst(loads) => |loads| in {1, 2, 4} case WriteBurst(stores) => |stores| in {1, 2, 4}
    ensures ss[i].asked.Some? ==> ss[i].phase == Reading && ss[i].job == NoJob
    ensures ss[i].enabled <==> !ss[i].done
    ensures ss[i].pendingReads == if ss[i].asked.Some? then 1 else 0
  {
    hide WritesOf, Transfer, IsRun;
    RunKeeps(m, rest, cfg, first, ss, steps, i);
  }

  /** What the engine is about to read with when step `st` makes it schedule reads, if it does. */
  function Asking(s: Dma, st: Step): Option<Dma>
    requires Shape(s)
  {
    match st
    case RunJob(_) => if s.job == ReadJob then Some(s.(job := NoJob)) else None
    case WriteResponse(_) =>
      if s.pendingWrites == 1 && s.transferred < s.cfg.TotalWords() then
        Some(Cleaned(s))
      else None
    case _ => None
  }

  /** The buffer never overflows and holds exactly the source words after those already issued; the
      words counted in are those issued plus those buffered. A read is scheduled only when none is
      outstanding and words are missing, so the branch for nothing to read is never taken, and a
      write phase never finds the buffer empty. */
  lemma BuffersTheSource(m: Source, rest: Dma, cfg: Config, first: bool, ss: seq<Dma>, steps: seq<Step>, i: nat)
    requires IsRun(m, rest, cfg, first, ss, steps) && i < |steps|
    ensures Shape(ss[i]) && |ss[i].buffer| == 256 && ss[i].bufferIndex <= 256 && ss[i].toBuffer <= cfg.TotalWords()
    ensures ss[i].phase == Reading ==>
              ss[i].toBuffer == ss[i].transferred + ss[i].bufferIndex &&
              forall k :: 0 <= k < ss[i].bufferIndex ==> ss[i].buffer[k] == m(cfg.SrcAddr(ss[i].transferred + k))
    ensures Asking(ss[i], steps[i]).Some? ==> ss[i].asked == None && WordsToRead(Asking(ss[i], steps[i]).value) > 0
    ensures ss[i].job == WriteJob ==> ss[i].bufferIndex > 0
  {
    hide WritesOf, Transfer, AllLegal, Next;
    RunKeeps(m, rest, cfg, first, ss, steps, i);
    assert Linked(m, ss, steps, i);
  }

  /** What a scheduling of reads asks for: one burst of one, two or four words, four whenever that many fit and
      are missing and otherwise the most of the three that do, for the source words that come next; it is with
      the bus if the bus takes it and last in the queue if not. */
  lemma AsksForNext(m: Source, rest: Dma, cfg: Config, first: bool, ss: seq<Dma>, steps: seq<Step>, i: nat)
    requires IsRun(m, rest, cfg, first, ss, steps) && i < |steps| && |ss| == |steps| + 1
    requires Shape(ss[i]) && Asking(ss[i], steps[i]).Some?
    ensures var s, t := Asking(ss[i], steps[i]).value, ss[i + 1];
            && t.asked.Some?
            && var loads, words := t.asked.value, Min(256 - s.bufferIndex, cfg.TotalWords() - s.toBuffer);
               && |loads| == (if words >= 4 then 4 else if words >= 2 then 2 else 1)
               && (forall k :: 0 <= k < |loads| ==>
                     loads[k] == ReadReq(cfg.SrcAddr(s.transferred + s.bufferIndex + k), s.bufferIndex + k))
               && t.sent == ss[i].sent + (if steps[i].taken(0) then [ReadBurst(loads)] else [])
               && t.queue == ss[i].queue + (if steps[i].taken(0) then [] else [ReadBurst(loads)])
  {
    hide Invariant, Conserved, Next, ScheduleReads, ReadChunk, Enable, AllLegal, Config.TotalWords, Config.SrcAddr;
    BuffersTheSource(m, rest, cfg, first, ss, steps, i);
    RunKeeps(m, rest, cfg, first, ss, steps, i);
    assert Linked(m, ss, steps, i);
    NextReads(ss[i], steps[i]);
    ReadsAsk(Asking(ss[i], steps[i]).value, steps[i].taken);
  }

  /** Such a step schedules reads from there. */
  lemma NextReads(s: Dma, st: Step)
    requires Shape(s) && Possible(s, st) && Asking(s, st).Some?
    ensures var n := Asking(s, st).value;
            && Shape(n) && n.sent == s.sent && n.queue == s.queue && n.cfg == s.cfg
            && Next(s, st) == ScheduleReads(n, st.taken)
  {
    hide ScheduleReads, Cleared, Config.TotalWords;
  }

  lemma ReadsAsk(s: Dma, taken: nat -> bool)
    requires Shape(s) && WordsToRead(s) > 0
    ensures var loads, words := ReadRequests(s, ReadChunk(WordsToRead(s))), WordsToRead(s);
            && |loads| == (if words >= 4 then 4 else if words >= 2 then 2 else 1)
            && ScheduleReads(s, taken) == Push(s, ReadBurst(loads), taken(0)).(pendingReads := 1, asked := Some(loads))
  {
    hide Config.TotalWords;
  }

  /** A retry sends the packet that was refused first; taken and refused packets together keep their order. */
  lemma RetryKeepsOrder(s: Dma, took: bool)
    requires Shape(s)
    ensures var n := Next(s, Retry(took));
            && n.sent + n.queue == s.sent + s.queue && |n.queue| == |s.queue| - (if took && s.queue != [] then 1 else 0)
            && n == s.(sent := n.sent, queue := n.queue)
  {
    if s.queue != [] { assert s.queue == [s.queue[0]] + s.queue[1..]; }
  }

  // ---- Handing over from a write phase ----

  /** The engine waits out a write phase. */
  predicate Awaiting(s: Dma) { s.phase == Writing && s.job == NoJob }

  /** Outside a write phase responses only lower the count: the hand-over does not repeat. */
  lemma LateResponse(m: Source, s: Dma, taken: nat -> bool)
    requires Invariant(m, s) && !Awaiting(s)
    ensures HandleWrite(s, taken) == s.(pendingWrites := s.pendingWrites - 1)
  {
    hide Transfer;
  }

  function Responses(steps: seq<Step>): nat {
    if steps == [] then 0 else Responses(steps[..|steps| - 1]) + if steps[|steps| - 1].WriteResponse? then 1 else 0
  }

  /** The words that went out are zeroed, the others kept. */
  predicate Emptied(was: seq<Word>, n: nat, now: seq<Word>) {
    |now| == |was| && forall k :: 0 <= k < |was| ==> now[k] == if k < n then 0 else was[k]
  }

  /** One step while the engine waits. */
  lemma WaitingStep(m: Source, s: Dma, st: Step)
    requires Invariant(m, s) && Awaiting(s) && Possible(s, st)
    ensures !Awaiting(Next(s, st)) <==> st.WriteResponse? && s.pendingWrites == 1
    ensures Awaiting(Next(s, st)) ==>
              Next(s, st).pendingWrites == s.pendingWrites - (if st.WriteResponse? then 1 else 0)
    ensures !Awaiting(Next(s, st)) ==>
              Next(s, st).bufferIndex == 0 && Next(s, st).done == (s.transferred == s.cfg.TotalWords())
    ensures !Awaiting(Next(s, st)) ==> Emptied(s.buffer, s.bufferIndex, Next(s, st).buffer)
  {
    hide Transfer, ReadChunk, ReadRequests, WriteOut;
  }

  /** A write phase begins with the scheduled job: the engine then waits, every buffered word is out,
      and the count it waits for is the number of packets the bus refused, by which the queue grows. */
  lemma PhaseBegins(m: Source, s: Dma, taken: nat -> bool)
    requires Invariant(m, s) && s.job == WriteJob
    ensures var n := Next(s, RunJob(taken));
            && Awaiting(n) && n.transferred == s.toBuffer && n.bufferIndex == s.bufferIndex
            && n.pendingWrites == |Chosen(WritePackets(s, 0), taken, 0, false)| == |n.queue| - |s.queue|
  {
    hide Transfer, WritePackets, Chosen, WritesOf;
    SamePackets(s.(job := NoJob), s, 0);
  }

  lemma {:induction false} SamePackets(s: Dma, t: Dma, offset: nat)
    requires Shape(s) && Shape(t) && s.bufferIndex == t.bufferIndex <= CAPACITY
    requires s.cfg == t.cfg && s.transferred == t.transferred && s.buffer == t.buffer
    ensures WritePackets(s, offset) == WritePackets(t, offset)
    decreases s.bufferIndex - offset
  {
    if offset < s.bufferIndex { SamePackets(s, t, offset + WriteChunk(s.bufferIndex - offset)); }
  }

  /** Write hand-over: whatever happens meanwhile, the write phase that waits from state `j` ends with
      the step that brings the number of responses since then up to the number of pushes refused in
      it, and with no other; with none refused it never ends. */
  lemma {:induction false} PhaseEnds(m: Source, rest: Dma, cfg: Config, first: bool, ss: seq<Dma>, steps: seq<Step>,
                                     j: nat, i: nat)
    requires IsRun(m, rest, cfg, first, ss, steps) && j <= i < |steps| && |ss| == |steps| + 1
    requires ss[j].pendingWrites >= 0
    requires forall t :: j <= t <= i ==> Awaiting(ss[t])
    ensures ss[i].pendingWrites == ss[j].pendingWrites - Responses(steps[j..i])
    ensures !Awaiting(ss[i + 1]) <==> steps[i].WriteResponse? && Responses(steps[j..i + 1]) == ss[j].pendingWrites
    ensures !Awaiting(ss[i + 1]) ==>
              ss[i + 1].bufferIndex == 0 && ss[i + 1].done == (ss[i].transferred == cfg.TotalWords())
    ensures !Awaiting(ss[i + 1]) ==> Emptied(ss[i].buffer, ss[i].bufferIndex, ss[i + 1].buffer)
  {
    hide IsRun, Awaiting, Responses;
    if j < i {
      PhaseEnds(m, rest, cfg, first, ss, steps, j, i - 1);
      OneMoreStep(steps, j, i - 1);
      WaitsInRun(m, rest, cfg, first, ss, steps, i - 1);
    } else {
      NoSteps(steps, j);
    }
    WaitsInRun(m, rest, cfg, first, ss, steps, i);
    OneMoreStep(steps, j, i);
  }

  lemma WaitsInRun(m: Source, rest: Dma, cfg: Config, first: bool, ss: seq<Dma>, steps: seq<Step>, i: nat)
    requires IsRun(m, rest, cfg, first, ss, steps) && i < |steps| && |ss| == |steps| + 1 && Awaiting(ss[i])
    ensures !Awaiting(ss[i + 1]) <==> steps[i].WriteResponse? && ss[i].pendingWrites == 1
    ensures Awaiting(ss[i + 1]) ==>
              ss[i + 1].pendingWrites == ss[i].pendingWrites - (if steps[i].WriteResponse? then 1 else 0)
    ensures !Awaiting(ss[i + 1]) ==>
              ss[i + 1].bufferIndex == 0 && ss[i + 1].done == (ss[i].transferred == cfg.TotalWords())
    ensures !Awaiting(ss[i + 1]) ==> Emptied(ss[i].buffer, ss[i].bufferIndex, ss[i + 1].buffer)
  {
    hide Next, Enable, Invariant, Awaiting;
    RunKeeps(m, rest, cfg, first, ss, steps, i);
    assert Linked(m, ss, steps, i);
    WaitingStep(m, ss[i], steps[i]);
  }

  lemma OneMoreStep(steps: seq<Step>, j: nat, i: nat)
    requires j <= i < |steps|
    ensures Responses(steps[j..i + 1]) == Responses(steps[j..i]) + (if steps[i].WriteResponse? then 1 else 0)
  {
    assert steps[j..i + 1][..i - j] == steps[j..i];
  }

  lemma NoSteps(steps: seq<Step>, j: nat)
    requires j <= |steps|
    ensures Responses(steps[j..j]) == 0
  {}
}
