/** When the engine's completion means that its writes have been acknowledged, in terms of what the
    bus takes at once. */
module DmaDone {
  import opened Words
  import opened DmaModel
  import opened DmaProof
  import opened DmaRuns

  // ---- When completion means acknowledged ----

  function WriteBursts(ps: seq<Packet>): nat {
    if ps == [] then 0 else (if ps[0].WriteBurst? then 1 else 0) + WriteBursts(ps[1..])
  }

  /** Write packets made, wherever they are now. */
  function Made(s: Dma): nat { WriteBursts(s.sent) + WriteBursts(s.queue) }

  /** Write packets the bus takes at once in a step: the engine does not wait for their responses. */
  function Direct(s: Dma, st: Step): nat {
    if Shape(s) && st.RunJob? && s.job == WriteJob && s.bufferIndex <= CAPACITY
    then |Chosen(WritePackets(s, 0), st.taken, 0, true)| else 0
  }

  /** A response that arrives while the engine waits for none. */
  function Late(s: Dma, st: Step): nat { if st.WriteResponse? && !Awaiting(s) then 1 else 0 }

  /** Packets taken at once less late responses, up to state `i`. */
  function Unwaited(ss: seq<Dma>, steps: seq<Step>, i: nat): int
    requires i <= |steps| && |ss| == |steps| + 1
  {
    if i == 0 then 0 else Unwaited(ss, steps, i - 1) + Direct(ss[i - 1], steps[i - 1]) - Late(ss[i - 1], steps[i - 1])
  }

  /** Write packets made less responses received, `unwaited` of them outside every wait. */
  predicate Ledger(earlier: int, answered: int, unwaited: int, s: Dma) {
    Made(s) == earlier + answered + unwaited + if Awaiting(s) then s.pendingWrites else 0
  }

  lemma {:induction false} WriteBurstsSplits(a: seq<Packet>, b: seq<Packet>)
    ensures WriteBursts(a + b) == WriteBursts(a) + WriteBursts(b)
  {
    if a == [] {
      assert a + b == b;
    } else {
      assert (a + b)[1..] == a[1..] + b;
      WriteBurstsSplits(a[1..], b);
    }
  }

  predicate AllWrites(ps: seq<Packet>) { forall i :: 0 <= i < |ps| ==> ps[i].WriteBurst? }

  lemma {:induction false} ChosenCounts(ps: seq<Packet>, taken: nat -> bool, k: nat)
    requires AllWrites(ps)
    ensures WriteBursts(Chosen(ps, taken, k, true)) == |Chosen(ps, taken, k, true)|
    ensures WriteBursts(Chosen(ps, taken, k, false)) == |Chosen(ps, taken, k, false)|
    ensures |Chosen(ps, taken, k, true)| + |Chosen(ps, taken, k, false)| == |ps|
  {
    if ps != [] {
      ChosenCounts(ps[1..], taken, k + 1);
      ChosenHead(ps, taken, k);
      var rest := Chosen(ps[1..], taken, k + 1, taken(k));
      assert ([ps[0]] + rest)[1..] == rest;
    }
  }

  lemma {:induction false} PacketsAreWrites(s: Dma, offset: nat)
    requires Shape(s) && s.bufferIndex <= CAPACITY
    ensures AllWrites(WritePackets(s, offset))
    decreases s.bufferIndex - offset
  {
    if offset < s.bufferIndex { PacketsAreWrites(s, offset + WriteChunk(s.bufferIndex - offset)); }
  }

  lemma WriteOutLedger(s: Dma, taken: nat -> bool)
    requires Shape(s) && s.bufferIndex <= CAPACITY
    ensures Made(WriteOut(s, taken)) ==
              Made(s) + |Chosen(WritePackets(s, 0), taken, 0, true)| + WriteOut(s, taken).pendingWrites
  {
    hide WriteBursts, WritePackets, Chosen, WritesOf;
    var ps := WritePackets(s, 0);
    PacketsAreWrites(s, 0);
    ChosenCounts(ps, taken, 0);
    WriteBurstsSplits(s.sent, Chosen(ps, taken, 0, true));
    WriteBurstsSplits(s.queue, Chosen(ps, taken, 0, false));
  }

  lemma ReadsLedger(s: Dma, taken: nat -> bool)
    requires Shape(s) && s.bufferIndex <= CAPACITY && WordsToRead(s) > 0
    ensures Made(ScheduleReads(s, taken)) == Made(s)
  {
    var b := ReadBurst(ReadRequests(s, ReadChunk(WordsToRead(s))));
    WriteBurstsSplits(s.queue, [b]);
    WriteBurstsSplits(s.sent, [b]);
    assert WriteBursts([b]) == 0;
  }

  lemma StepLedger(m: Source, earlier: int, answered: int, unwaited: int, s: Dma, st: Step)
    requires Invariant(m, s) && Possible(s, st) && Ledger(earlier, answered, unwaited, s)
    ensures var one := if st.WriteResponse? then 1 else 0;
            Ledger(earlier, answered + one, unwaited + Direct(s, st) - Late(s, st), Next(s, st))
  {
    hide WriteBursts, Fill, WriteOut, Transfer, ReadChunk, ReadRequests, WritePackets, Chosen;
    match st {
      case ReadResponse(data) =>
      case RunJob(taken) =>
        var n := s.(job := NoJob);
        if s.job == ReadJob { ReadsLedger(n, taken); }
        else { WriteOutLedger(n, taken); WriteOutPhase(n, taken); SamePackets(n, s, 0); }
      case WriteResponse(taken) =>
        var e := s.(pendingWrites := 0, buffer := Cleared(s.buffer, s.bufferIndex), bufferIndex := 0, phase := Reading);
        if Awaiting(s) && s.pendingWrites == 1 && e.transferred < e.cfg.TotalWords() { ReadsLedger(e, taken); }
      case Retry(took) =>
        if s.queue != [] && took {
          WriteBurstsSplits(s.sent, [s.queue[0]]);
          assert [s.queue[0]] + s.queue[1..] == s.queue;
          WriteBurstsSplits([s.queue[0]], s.queue[1..]);
        }
    }
  }

  lemma WriteOutPhase(s: Dma, taken: nat -> bool)
    requires Shape(s) && s.bufferIndex <= CAPACITY
    ensures WriteOut(s, taken).phase == s.phase && WriteOut(s, taken).job == s.job
  {}

  /** The account of a run: while the engine does not wait, the write packets made exceed the
      responses received by the packets the bus took at once less the late responses. */
  lemma {:induction false} RunLedger(m: Source, rest: Dma, cfg: Config, first: bool, ss: seq<Dma>, steps: seq<Step>,
                                     i: nat)
    requires IsRun(m, rest, cfg, first, ss, steps) && i < |ss|
    ensures Ledger(Made(rest), Responses(steps[..i]), Unwaited(ss, steps, i), ss[i])
  {
    hide Next, Enable, Invariant, Made, Possible, Faithful, Ledger, Direct, Late, Shape;
    if i == 0 {
      StartLedger(m, rest, cfg, first);
    } else {
      RunLedger(m, rest, cfg, first, ss, steps, i - 1);
      RunKeeps(m, rest, cfg, first, ss, steps, i - 1);
      assert Linked(m, ss, steps, i - 1);
      StepLedger(m, Made(rest), Responses(steps[..i - 1]), Unwaited(ss, steps, i - 1), ss[i - 1], steps[i - 1]);
      assert steps[..i][..i - 1] == steps[..i - 1];
    }
  }

  lemma StartLedger(m: Source, rest: Dma, cfg: Config, first: bool)
    requires |rest.buffer| == CAPACITY && cfg.Valid()
    ensures Ledger(Made(rest), 0, 0, Enable(rest, cfg, first))
  {
    WordCount(cfg);
    var s := rest.(cfg := cfg, enabled := true, done := false, phase := Reading, job := NoJob,
                   transferred := 0, toBuffer := 0, bufferIndex := 0, written := []);
    hide WriteBursts, ReadChunk, ReadRequests;
    ReadsLedger(s, Always(first));
  }

  lemma DoneRests(m: Source, s: Dma)
    requires Invariant(m, s)
    ensures s.done ==> !Awaiting(s) && s.transferred == s.cfg.TotalWords()
  {
    hide Transfer;
  }

  /** In any run, the packets unanswered at completion are those the bus took at once less the late
      responses. */
  lemma ShortAtDone(m: Source, rest: Dma, cfg: Config, first: bool, ss: seq<Dma>, steps: seq<Step>, i: nat)
    requires IsRun(m, rest, cfg, first, ss, steps) && i < |ss| == |steps| + 1 && ss[i].done
    ensures Made(ss[i]) - Made(rest) - Responses(steps[..i]) == Unwaited(ss, steps, i)
  {
    hide IsRun, Made, Unwaited;
    RunLedger(m, rest, cfg, first, ss, steps, i);
    RunKeeps(m, rest, cfg, first, ss, steps, i);
    DoneRests(m, ss[i]);
  }

  // ---- One phase ----

  /** `k` write responses in a row. */
  function Responded(s: Dma, taken: nat -> bool, k: nat): Dma
    requires Shape(s)
    ensures Shape(Responded(s, taken, k))
  {
    if k == 0 then s else ShapeStays(Responded(s, taken, k - 1), taken); HandleWrite(Responded(s, taken, k - 1), taken)
  }

  lemma ShapeStays(s: Dma, taken: nat -> bool)
    requires Shape(s)
    ensures Shape(HandleWrite(s, taken))
  {
    hide WritePackets, Chosen, WritesOf, ReadRequests;
  }

  lemma {:induction false} Counting(s: Dma, taken: nat -> bool, k: nat)
    requires Shape(s) && k < s.pendingWrites
    ensures Responded(s, taken, k) == s.(pendingWrites := s.pendingWrites - k)
  {
    if k > 0 { Counting(s, taken, k - 1); }
  }

  /** The bus takes `k` queued packets in a row. */
  function Retried(s: Dma, k: nat): Dma
    requires Shape(s)
    ensures Shape(Retried(s, k))
  {
    if k == 0 then s else Next(Retried(s, k - 1), Retry(true))
  }

  lemma {:induction false} Draining(s: Dma, k: nat)
    requires Shape(s) && k <= |s.queue|
    ensures Retried(s, k) == s.(sent := s.sent + s.queue[..k], queue := s.queue[k..])
  {
    if k > 0 {
      Draining(s, k - 1);
      assert s.sent + s.queue[..k] == (s.sent + s.queue[..k - 1]) + [s.queue[k - 1]];
      assert s.queue[k - 1..][1..] == s.queue[k..];
    } else {
      assert s.sent + [] == s.sent;
    }
  }

  /** Once the queue has drained, every packet made has left the engine. */
  lemma Drained(s: Dma)
    requires Shape(s)
    ensures var n := Retried(s, |s.queue|);
            n.queue == [] && n.sent == s.sent + s.queue && WriteBursts(n.sent) == Made(n) == Made(s)
  {
    hide WriteBursts;
    Draining(s, |s.queue|);
    WriteBurstsSplits(s.sent, s.queue);
    NoBursts();
  }

  lemma NoBursts()
    ensures WriteBursts([]) == 0
  {}

  /** The last write phase, `refused` of whose packets the bus refuses at first. */
  lemma PhaseMade(m: Source, s: Dma, taken: nat -> bool)
    requires Invariant(m, s) && s.job == WriteJob
    ensures Shape(s) && Shape(Next(s, RunJob(taken)))
    ensures Made(Next(s, RunJob(taken))) == Made(s) + |WritePackets(s, 0)|
  {
    hide WriteBursts, Transfer, WritePackets, Chosen, WritesOf;
    var w := s.(job := NoJob);
    SamePackets(w, s, 0);
    WriteOutLedger(w, taken);
    PacketsAreWrites(s, 0);
    ChosenCounts(WritePackets(s, 0), taken, 0);
  }

  /** In the last write phase, with some packets taken by the bus at once and some refused: the refused
      ones leave the queue, and then as many responses as were refused complete the transfer, while
      the others are unanswered. */
  lemma DoneTooEarly(m: Source, s: Dma, taken: nat -> bool, answer: nat -> bool)
    requires Invariant(m, s) && s.job == WriteJob && s.toBuffer == s.cfg.TotalWords()
    requires var refused := |Chosen(WritePackets(s, 0), taken, 0, false)|; 0 < refused < |WritePackets(s, 0)|
    ensures Shape(Next(s, RunJob(taken)))
    ensures var refused, n := |Chosen(WritePackets(s, 0), taken, 0, false)|, Next(s, RunJob(taken));
            var d := Retried(n, |n.queue|);
            && d.queue == [] && WriteBursts(d.sent) == Made(s) + |WritePackets(s, 0)| > Made(s) + refused
            && Responded(d, answer, refused).done && Made(Responded(d, answer, refused)) == WriteBursts(d.sent)
  {
    hide Invariant, Made, WriteBursts, WritePackets, Chosen, Next, Retried, Config.TotalWords;
    Bounded(m, s);
    var refused, n := |Chosen(WritePackets(s, 0), taken, 0, false)|, Next(s, RunJob(taken));
    PhaseMade(m, s, taken);
    PhaseBegins(m, s, taken);
    JobKept(m, s, taken);
    Drained(n);
    Draining(n, |n.queue|);
    LastResponses(Retried(n, |n.queue|), answer);
  }

  lemma JobKept(m: Source, s: Dma, taken: nat -> bool)
    requires Invariant(m, s) && s.job == WriteJob
    ensures Shape(s) && Next(s, RunJob(taken)).cfg == s.cfg
  {
    Bounded(m, s);
    CfgKept(s, RunJob(taken));
  }

  /** The responses waited for in the last phase complete the transfer and make nothing. */
  lemma LastResponses(s: Dma, answer: nat -> bool)
    requires Shape(s) && Awaiting(s) && s.pendingWrites > 0 && s.transferred >= s.cfg.TotalWords()
    ensures var n := Responded(s, answer, s.pendingWrites); n.done && Made(n) == Made(s)
  {
    hide HandleWrite, WriteBursts;
    Counting(s, answer, s.pendingWrites - 1);
    LastResponse(Responded(s, answer, s.pendingWrites - 1), answer);
  }

  lemma LastResponse(s: Dma, answer: nat -> bool)
    requires Shape(s) && s.pendingWrites == 1 && s.transferred >= s.cfg.TotalWords()
    ensures var n := HandleWrite(s, answer); n.done && n.sent == s.sent && n.queue == s.queue
  {
    hide ScheduleReads, Cleared, Config.TotalWords;
  }

  // ---- Policies of the bus ----

  /** `policy(w)(k)`: the bus takes the k-th packet of the write phase after `w` words at once. */
  type Policy = nat -> (nat -> bool)

  /** A write phase of the transfer starts after `w` words. */
  predicate PhaseStart(cfg: Config, w: nat) { w % CAPACITY == 0 && w < cfg.TotalWords() }

  /** Packets that `words` buffered words make. */
  function PacketCount(words: nat): nat {
    if words == 0 then 0 else 1 + PacketCount(words - WriteChunk(words))
  }

  /** Packets of the phase after `w` words. */
  function PhasePackets(cfg: Config, w: nat): nat {
    if w < cfg.TotalWords() then PacketCount(Min(CAPACITY, cfg.TotalWords() - w)) else 0
  }

  /** Of the pushes `k` to `k + n`, those taken at once. */
  function CountTaken(taken: nat -> bool, k: nat, n: nat): (c: nat)
    ensures c <= n
    decreases n
  {
    if n == 0 then 0 else (if taken(k) then 1 else 0) + CountTaken(taken, k + 1, n - 1)
  }

  /** Packets of that phase that `policy` takes at once. */
  function TakenIn(cfg: Config, policy: Policy, w: nat): (c: nat)
    ensures c <= PhasePackets(cfg, w)
  {
    CountTaken(policy(w), 0, PhasePackets(cfg, w))
  }

  lemma {:induction false} PacketsCounted(s: Dma, offset: nat)
    requires Shape(s) && offset <= s.bufferIndex <= CAPACITY
    ensures |WritePackets(s, offset)| == PacketCount(s.bufferIndex - offset)
    decreases s.bufferIndex - offset
  {
    if offset < s.bufferIndex { PacketsCounted(s, offset + WriteChunk(s.bufferIndex - offset)); }
  }

  lemma {:induction false} ChosenCountTaken(ps: seq<Packet>, taken: nat -> bool, other: nat -> bool, k: nat)
    requires forall j: nat :: taken(j) == other(j)
    ensures |Chosen(ps, taken, k, true)| == CountTaken(other, k, |ps|)
    ensures |Chosen(ps, taken, k, false)| == |ps| - CountTaken(other, k, |ps|)
  {
    if ps != [] { ChosenCountTaken(ps[1..], taken, other, k + 1); }
  }

  /** The bus does in this step what `policy` says. */
  ghost predicate Obeys(policy: Policy, s: Dma, st: Step) {
    st.RunJob? && s.job == WriteJob ==> forall j: nat :: st.taken(j) == policy(s.transferred)(j)
  }

  /** What a phase costs under a policy. */
  lemma PhaseCounts(m: Source, cfg: Config, policy: Policy, s: Dma, st: Step)
    requires Invariant(m, s) && s.cfg == cfg && st.RunJob? && s.job == WriteJob && Obeys(policy, s, st)
    ensures Direct(s, st) == TakenIn(cfg, policy, s.transferred)
    ensures |Chosen(WritePackets(s, 0), st.taken, 0, false)| ==
              PhasePackets(cfg, s.transferred) - TakenIn(cfg, policy, s.transferred)
    ensures s.transferred < cfg.TotalWords() && s.toBuffer == Min(s.transferred + CAPACITY, cfg.TotalWords())
  {
    hide Transfer, WritePackets, Chosen, PacketCount, CountTaken;
    PacketsCounted(s, 0);
    ChosenCountTaken(WritePackets(s, 0), st.taken, policy(s.transferred), 0);
  }

  // ---- Honest runs under a policy ----

  /** The policy binds the pushes of write phases only; a read burst is taken or refused freely. */
  lemma ReadsAreFree(policy: Policy, s: Dma, st: Step)
    requires !(st.RunJob? && s.job == WriteJob)
    ensures Obeys(policy, s, st)
  {}

  /** Every response answers a packet that has left the engine: a write response one not answered
      before, packets of earlier transfers counting as answered, and a read response the burst asked. */
  predicate Honest(earlier: int, answered: int, s: Dma, st: Step) {
    && (st.WriteResponse? ==> earlier + answered < WriteBursts(s.sent))
    && (st.ReadResponse? && s.asked.Some? ==>
          ReadBurst(s.asked.value) in s.sent && ReadBurst(s.asked.value) !in s.queue)
  }

  lemma SentIsMade(s: Dma)
    ensures WriteBursts(s.sent) <= Made(s)
  {}

  ghost predicate Fair(rest: Dma, policy: Policy, ss: seq<Dma>, steps: seq<Step>, i: nat)
    requires i < |steps| && |ss| == |steps| + 1
  {
    Obeys(policy, ss[i], steps[i]) && Honest(Made(rest), Responses(steps[..i]), ss[i], steps[i])
  }

  /** A run in which the bus keeps to `policy` and responses are honest. */
  ghost predicate FairRun(m: Source, rest: Dma, cfg: Config, first: bool, policy: Policy, ss: seq<Dma>,
                          steps: seq<Step>) {
    && IsRun(m, rest, cfg, first, ss, steps)
    && |ss| == |steps| + 1
    && forall i {:trigger Fair(rest, policy, ss, steps, i)} :: 0 <= i < |steps| ==> Fair(rest, policy, ss, steps, i)
  }

  /** Completion always means acknowledged: in every such run that ends in done, every write packet
      it made has been answered. */
  ghost predicate Safe(m: Source, rest: Dma, cfg: Config, policy: Policy) {
    forall first: bool, ss: seq<Dma>, steps: seq<Step> ::
      FairRun(m, rest, cfg, first, policy, ss, steps) && ss[|steps|].done ==>
        Made(ss[|steps|]) == Made(rest) + Responses(steps)
  }

  /** Some such run ends in done. */
  ghost predicate Completable(m: Source, rest: Dma, cfg: Config, policy: Policy) {
    exists first: bool, ss: seq<Dma>, steps: seq<Step> ::
      FairRun(m, rest, cfg, first, policy, ss, steps) && ss[|steps|].done
  }

  /** Write phases start at multiples of the buffer's capacity. */
  predicate Aligned(s: Dma) { s.transferred == s.cfg.TotalWords() || s.transferred % CAPACITY == 0 }

  lemma AlignedStays(m: Source, s: Dma, st: Step)
    requires Invariant(m, s) && Possible(s, st) && Aligned(s)
    ensures Aligned(Next(s, st))
  {
    MovesOn(m, s, st);
    CfgKept(s, st);
  }

  /** Words count as issued in the step that starts a write phase, and in no other. */
  lemma MovesOn(m: Source, s: Dma, st: Step)
    requires Invariant(m, s) && Possible(s, st)
    ensures Shape(s)
    ensures Next(s, st).transferred == if st.RunJob? && s.job ==
              WriteJob then Min(s.transferred + CAPACITY, s.cfg.TotalWords()) else s.transferred
  {
    hide Transfer, Fill, ReadRequests, WritePackets, Chosen, WritesOf, ReadChunk;
  }

  lemma {:induction false} RunAligned(m: Source, rest: Dma, cfg: Config, first: bool, ss: seq<Dma>, steps: seq<Step>,
                                      i: nat)
    requires IsRun(m, rest, cfg, first, ss, steps) && i < |ss|
    ensures Aligned(ss[i])
  {
    hide Invariant, Next, Enable, Conserved, Possible, Faithful;
    if i == 0 {
      StartsAtZero(rest, cfg, first);
    } else {
      RunAligned(m, rest, cfg, first, ss, steps, i - 1);
      RunKeeps(m, rest, cfg, first, ss, steps, i - 1);
      assert Linked(m, ss, steps, i - 1);
      AlignedStays(m, ss[i - 1], steps[i - 1]);
    }
  }

  lemma StartsAtZero(rest: Dma, cfg: Config, first: bool)
    requires |rest.buffer| == CAPACITY && cfg.Valid()
    ensures Enable(rest, cfg, first).transferred == 0
  {
    WordCount(cfg);
  }

  // ---- A policy that takes nothing at once ----

  /** If the bus takes no write packet at once, completion follows all acknowledgements. */
  lemma {:induction false} RefusingIsSafe(m: Source, rest: Dma, cfg: Config, first: bool, policy: Policy,
                                          ss: seq<Dma>, steps: seq<Step>, i: nat)
    requires FairRun(m, rest, cfg, first, policy, ss, steps) && i <= |steps|
    requires forall w :: PhaseStart(cfg, w) ==> TakenIn(cfg, policy, w) == 0
    ensures Unwaited(ss, steps, i) == 0
    ensures ss[i].done ==> Made(ss[i]) == Made(rest) + Responses(steps[..i])
  {
    hide IsRun, Made, Awaiting, PhaseStart, TakenIn;
    if i > 0 {
      RefusingIsSafe(m, rest, cfg, first, policy, ss, steps, i - 1);
      RunLedger(m, rest, cfg, first, ss, steps, i - 1);
      SentIsMade(ss[i - 1]);
      assert Fair(rest, policy, ss, steps, i - 1);
      NothingDirect(m, rest, cfg, first, policy, ss, steps, i - 1);
    }
    if ss[i].done { ShortAtDone(m, rest, cfg, first, ss, steps, i); }
  }

  lemma NothingDirect(m: Source, rest: Dma, cfg: Config, first: bool, policy: Policy, ss: seq<Dma>, steps: seq<Step>,
                      i: nat)
    requires IsRun(m, rest, cfg, first, ss, steps) && i < |steps| && |ss| == |steps| + 1
    requires Obeys(policy, ss[i], steps[i])
    requires forall w :: PhaseStart(cfg, w) ==> TakenIn(cfg, policy, w) == 0
    ensures Direct(ss[i], steps[i]) == 0
  {
    hide IsRun, TakenIn, Obeys, Conserved;
    RunKeeps(m, rest, cfg, first, ss, steps, i);
    RunAligned(m, rest, cfg, first, ss, steps, i);
    if steps[i].RunJob? && ss[i].job == WriteJob {
      PhaseCounts(m, cfg, policy, ss[i], steps[i]);
      hide Invariant;
      assert PhaseStart(cfg, ss[i].transferred);
    }
  }

  // ---- A policy that takes a whole phase at once ----

  /** A phase with every packet taken at once is never left. */
  lemma {:induction false} TakenPhaseStays(m: Source, rest: Dma, cfg: Config, first: bool, policy: Policy,
                                           ss: seq<Dma>, steps: seq<Step>, w: nat, i: nat)
    requires FairRun(m, rest, cfg, first, policy, ss, steps) && i <= |steps|
    requires PhaseStart(cfg, w) && TakenIn(cfg, policy, w) == PhasePackets(cfg, w)
    ensures ss[i].transferred <= w || (Awaiting(ss[i]) && ss[i].pendingWrites <= 0)
  {
    hide Invariant, Next, Enable, Conserved, Possible, Faithful, Obeys, Honest, TakenIn, PhasePackets, Awaiting;
    if i == 0 {
      StartsAtZero(rest, cfg, first);
    } else {
      TakenPhaseStays(m, rest, cfg, first, policy, ss, steps, w, i - 1);
      RunKeeps(m, rest, cfg, first, ss, steps, i - 1);
      RunAligned(m, rest, cfg, first, ss, steps, i - 1);
      assert Linked(m, ss, steps, i - 1) && Fair(rest, policy, ss, steps, i - 1);
      TakenPhaseStep(m, cfg, policy, ss[i - 1], steps[i - 1], w);
    }
  }

  lemma TakenPhaseStep(m: Source, cfg: Config, policy: Policy, s: Dma, st: Step, w: nat)
    requires Invariant(m, s) && Possible(s, st) && s.cfg == cfg && Obeys(policy, s, st) && Aligned(s)
    requires PhaseStart(cfg, w) && TakenIn(cfg, policy, w) == PhasePackets(cfg, w)
    requires s.transferred <= w || (Awaiting(s) && s.pendingWrites <= 0)
    ensures var n := Next(s, st); n.transferred <= w || (Awaiting(n) && n.pendingWrites <= 0)
  {
    hide Invariant, Next, TakenIn, PhasePackets, WritePackets, Chosen, Obeys;
    MovesOn(m, s, st);
    if s.transferred > w {
      WaitingStep(m, s, st);
    } else if st.RunJob? && s.job == WriteJob {
      PhaseCounts(m, cfg, policy, s, st);
      PhaseBegins(m, s, st.taken);
      NextMultiple(s.transferred, w);
    }
  }

  lemma NextMultiple(t: nat, w: nat)
    ensures t % CAPACITY == 0 && w % CAPACITY == 0 && t < w ==> t + CAPACITY <= w
  {}

  // ---- A policy that refuses something in every phase ----

  /** Packets that `policy` takes at once in the first `p` phases. */
  function Spent(cfg: Config, policy: Policy, p: nat): nat {
    if p == 0 then 0 else Spent(cfg, policy, p - 1) + TakenIn(cfg, policy, (p - 1) * CAPACITY)
  }

  lemma {:induction false} SpentGrows(cfg: Config, policy: Policy, p: nat, q: nat)
    requires p <= q
    ensures Spent(cfg, policy, p) <= Spent(cfg, policy, q)
  {
    hide TakenIn;
    if p < q { SpentGrows(cfg, policy, p, q - 1); }
  }

  predicate RefusesSome(cfg: Config, policy: Policy, w: nat) { TakenIn(cfg, policy, w) < PhasePackets(cfg, w) }

  /** `p` phases have begun, and the packets unanswered are those taken at once and those waited for. */
  predicate OnCourse(m: Source, rest: Dma, cfg: Config, policy: Policy, p: nat, answered: int, s: Dma) {
    && Invariant(m, s) && s.cfg == cfg && s.transferred == Min(p * CAPACITY, cfg.TotalWords())
    && Ledger(Made(rest), answered, Spent(cfg, policy, p), s)
    && (Awaiting(s) ==> s.pendingWrites > 0) && AskedOut(s)
  }

  /** The burst asked for is on its way or with the bus. */
  predicate AskedOut(s: Dma) {
    s.asked.Some? ==> ReadBurst(s.asked.value) in s.sent || ReadBurst(s.asked.value) in s.queue
  }

  lemma AskedOutStays(m: Source, s: Dma, st: Step)
    requires Invariant(m, s) && Possible(s, st) && AskedOut(s)
    ensures AskedOut(Next(s, st))
  {
    Bounded(m, s);
    hide Invariant, ScheduleReads, WriteOut, Fill, Cleared;
    match st {
      case ReadResponse(_) =>
      case RunJob(taken) =>
        var n := s.(job := NoJob);
        ReadsAskOut(n, taken);
        ReadsAskOut(n.(phase := Reading), taken);
        WritesAskOut(n, taken);
      case WriteResponse(taken) => ReadsAskOut(Cleaned(s), taken);
      case Retry(took) =>
    }
  }

  lemma ReadsAskOut(s: Dma, taken: nat -> bool)
    requires Shape(s) && AskedOut(s)
    ensures AskedOut(ScheduleReads(s, taken))
  {
    hide ReadRequests, WriteOut;
    WritesAskOut(s.(phase := Writing), taken);
  }

  lemma WritesAskOut(s: Dma, taken: nat -> bool)
    requires Shape(s) && AskedOut(s)
    ensures AskedOut(WriteOut(s, taken))
  {
    hide WritePackets, Chosen, WritesOf;
  }

  function Answer(m: Source, r: ReadReq): Word { m(r.addr) }

  /** One step the engine can take from `s` under the policy: the queue drains first, and every response
      is waited for. */
  function Onward(m: Source, policy: Policy, s: Dma): Step {
    if s.queue != [] then Retry(true)
    else if s.asked.Some? then
      var loads := s.asked.value;
      ReadResponse(seq(|loads|, i requires 0 <= i < |loads| => Answer(m, loads[i])))
    else if s.job == NoJob then WriteResponse(Always(true))
    else RunJob(policy(s.transferred))
  }

  function Begun(p: nat, s: Dma): nat { if s.queue == [] && s.job == WriteJob then p + 1 else p }

  lemma OnwardIsFair(m: Source, rest: Dma, cfg: Config, policy: Policy, p: nat, answered: int, s: Dma)
    requires OnCourse(m, rest, cfg, policy, p, answered, s) && !s.done
    ensures var st := Onward(m, policy, s);
            Possible(s, st) && Faithful(m, s, st) && Obeys(policy, s, st) && Honest(Made(rest), answered, s, st)
  {
    hide Transfer, WriteBursts, Spent;
    NoBursts();
  }

  lemma OnwardKeeps(m: Source, rest: Dma, cfg: Config, policy: Policy, p: nat, answered: int, s: Dma)
    requires OnCourse(m, rest, cfg, policy, p, answered, s) && !s.done
    requires forall w :: PhaseStart(cfg, w) ==> RefusesSome(cfg, policy, w)
    ensures var st := Onward(m, policy, s);
            && Possible(s, st)
            && OnCourse(m, rest, cfg, policy, Begun(p, s), answered + (if st.WriteResponse? then 1 else 0), Next(s, st))
  {
    OnwardIsFair(m, rest, cfg, policy, p, answered, s);
    var st := Onward(m, policy, s);
    Bounded(m, s);
    StepKeeps(m, s, st);
    CfgKept(s, st);
    MovesOn(m, s, st);
    AskedOutStays(m, s, st);
    StepLedger(m, Made(rest), answered, Spent(cfg, policy, p), s, st);
    if s.queue != [] {
      RetryWaits(s);
    } else if s.job == WriteJob {
      PhaseOnward(m, rest, cfg, policy, p, answered, s);
    } else {
      NoPhaseOnward(m, policy, s);
    }
    hide Invariant, Made, Next, Possible, Faithful, Obeys, Honest, Ledger, Awaiting, Direct, Late, Spent, TakenIn;
    hide PhasePackets, AskedOut;
  }

  lemma RetryWaits(s: Dma)
    requires Shape(s)
    ensures Direct(s, Retry(true)) == 0 && Late(s, Retry(true)) == 0
    ensures Awaiting(Next(s, Retry(true))) == Awaiting(s) && Next(s, Retry(true)).pendingWrites == s.pendingWrites
  {}

  lemma PhaseOnward(m: Source, rest: Dma, cfg: Config, policy: Policy, p: nat, answered: int, s: Dma)
    requires OnCourse(m, rest, cfg, policy, p, answered, s) && s.job == WriteJob && s.queue == []
    requires forall w :: PhaseStart(cfg, w) ==> RefusesSome(cfg, policy, w)
    ensures var st := Onward(m, policy, s);
            && st == RunJob(policy(s.transferred)) && Possible(s, st) && Shape(s) && Awaiting(Next(s, st))
            && Next(s, st).pendingWrites > 0
            && Spent(cfg, policy, p + 1) == Spent(cfg, policy, p) + Direct(s, st) - Late(s, st)
            && Min(s.transferred + CAPACITY, cfg.TotalWords()) == Min((p + 1) * CAPACITY, cfg.TotalWords())
  {
    hide Invariant, Ledger, Next, TakenIn, PhasePackets, Direct, Config.TotalWords, Awaiting, WritePackets, Chosen;
    var st := Onward(m, policy, s);
    JobWaits(m, s);
    PhaseCounts(m, cfg, policy, s, st);
    PhaseBegins(m, s, policy(s.transferred));
    assert s.transferred == p * CAPACITY;
    assert PhaseStart(cfg, s.transferred);
  }

  lemma JobWaits(m: Source, s: Dma)
    requires Invariant(m, s) && s.job == WriteJob
    ensures s.asked == None && Shape(s)
  {
    hide Transfer;
  }

  /** Outside the start of a phase, nothing is taken at once, no response is late, and the engine is
      left waiting only for what it waits for already. */
  lemma NoPhaseOnward(m: Source, policy: Policy, s: Dma)
    requires Invariant(m, s) && s.job != WriteJob && !s.done && (Awaiting(s) ==> s.pendingWrites > 0) && s.queue == []
    ensures var st := Onward(m, policy, s);
            && Shape(s) && Possible(s, st) && Direct(s, st) == 0 && Late(s, st) == 0
            && !(st.RunJob? && s.job == WriteJob)
            && (Awaiting(Next(s, st)) ==> Next(s, st).pendingWrites > 0)
  {
    var st := Onward(m, policy, s);
    if Awaiting(s) {
      AwaitsNothing(m, s);
      WaitingStep(m, s, st);
    } else {
      NotWaiting(m, policy, s);
    }
  }

  lemma AwaitsNothing(m: Source, s: Dma)
    requires Invariant(m, s) && Awaiting(s)
    ensures s.asked == None
  {
    hide Transfer;
  }

  lemma NotWaiting(m: Source, policy: Policy, s: Dma)
    requires Invariant(m, s) && s.phase == Reading && s.queue == []
    ensures var st := Onward(m, policy, s);
            && Shape(s) && Possible(s, st) && !st.WriteResponse? && !Awaiting(Next(s, st)) && s.job != WriteJob
  {
    hide Transfer, Fill, ReadRequests;
  }

  /** What is left to do: words to issue, words to read, and within those what the engine waits for. */
  function Rank(s: Dma): nat { if s.phase == Reading then 2 else if s.job == WriteJob then 1 else 3 }

  function Waits(s: Dma): nat {
    if Awaiting(s) && s.pendingWrites > 0 then s.pendingWrites else if s.job == ReadJob then 1 else 0
  }

  predicate Nearer(s: Dma, n: Dma) {
    var ws, wn := s.cfg.TotalWords() - s.transferred, n.cfg.TotalWords() - n.transferred;
    var bs, bn := s.cfg.TotalWords() - s.toBuffer, n.cfg.TotalWords() - n.toBuffer;
    || wn < ws
    || (wn == ws && Rank(n) < Rank(s))
    || (wn == ws && Rank(n) == Rank(s) && bn < bs)
    || (wn == ws && Rank(n) == Rank(s) && bn == bs && Waits(n) < Waits(s))
    || (wn == ws && Rank(n) == Rank(s) && bn == bs && Waits(n) == Waits(s) && |n.queue| < |s.queue|)
  }

  lemma OnwardNears(m: Source, policy: Policy, s: Dma)
    requires Invariant(m, s) && !s.done && (Awaiting(s) ==> s.pendingWrites > 0) && Possible(s, Onward(m, policy, s))
    ensures Shape(s) && Nearer(s, Next(s, Onward(m, policy, s)))
  {
    var st := Onward(m, policy, s);
    Bounded(m, s);
    CfgKept(s, st);
    if s.queue != [] {
      hide Invariant;
    } else if s.phase == Reading {
      ReadingNears(m, policy, s);
    } else if s.job == WriteJob {
      MovesOn(m, s, st);
      WriteJobFacts(m, s);
    } else {
      AwaitsNothing(m, s);
      AwaitingNears(m, s);
    }
  }

  lemma WriteJobFacts(m: Source, s: Dma)
    requires Invariant(m, s) && s.job == WriteJob
    ensures s.asked == None && s.transferred < s.cfg.TotalWords()
  {
    hide Transfer;
  }

  lemma ReadingNears(m: Source, policy: Policy, s: Dma)
    requires Invariant(m, s) && s.phase == Reading && s.queue == [] && Possible(s, Onward(m, policy, s))
    ensures Shape(s) && Nearer(s, Next(s, Onward(m, policy, s)))
  {
    hide Transfer, Fill, WritePackets, Chosen, WritesOf;
    var st := Onward(m, policy, s);
    MovesOn(m, s, st);
    if s.asked.Some? {
      assert |s.asked.value| == ReadChunk(WordsToRead(s)) > 0;
    }
  }

  lemma AwaitingNears(m: Source, s: Dma)
    requires Invariant(m, s) && Awaiting(s) && s.pendingWrites > 0
    ensures Shape(s) && Nearer(s, HandleWrite(s, Always(true)))
  {
    hide Transfer, ReadRequests, ReadChunk;
  }

  /** A fair run takes one more step. */
  lemma OneStepMore(m: Source, rest: Dma, cfg: Config, first: bool, policy: Policy, ss: seq<Dma>, steps: seq<Step>,
                    st: Step)
    requires FairRun(m, rest, cfg, first, policy, ss, steps)
    requires var s := ss[|steps|];
             && Shape(s) && Possible(s, st) && Faithful(m, s, st) && Obeys(policy, s, st)
             && Honest(Made(rest), Responses(steps), s, st)
    ensures FairRun(m, rest, cfg, first, policy, ss + [Next(ss[|steps|], st)], steps + [st])
    ensures Responses(steps + [st]) == Responses(steps) + (if st.WriteResponse? then 1 else 0)
  {
    hide Enable, Next, Obeys, Faithful, Possible, Made;
    var ts, us := ss + [Next(ss[|steps|], st)], steps + [st];
    assert us[..|steps|] == steps;
    forall i | 0 <= i < |us|
      ensures Linked(m, ts, us, i) && Fair(rest, policy, ts, us, i)
    {
      if i < |steps| {
        assert Linked(m, ss, steps, i) && Fair(rest, policy, ss, steps, i);
        assert us[..i] == steps[..i];
      }
    }
  }

  /** A fair run that is on course can be continued to its end, and stays on course. */
  lemma {:induction false} Completes(m: Source, rest: Dma, cfg: Config, first: bool, policy: Policy, ss: seq<Dma>,
                                     steps: seq<Step>, p: nat)
    returns (ts: seq<Dma>, us: seq<Step>, q: nat)
    requires FairRun(m, rest, cfg, first, policy, ss, steps)
    requires OnCourse(m, rest, cfg, policy, p, Responses(steps), ss[|steps|])
    requires forall w :: PhaseStart(cfg, w) ==> RefusesSome(cfg, policy, w)
    ensures FairRun(m, rest, cfg, first, policy, ts, us) && ts[|us|].done
    ensures OnCourse(m, rest, cfg, policy, q, Responses(us), ts[|us|])
    decreases ss[|steps|].cfg.TotalWords() - ss[|steps|].transferred, Rank(ss[|steps|]),
              ss[|steps|].cfg.TotalWords() - ss[|steps|].toBuffer, Waits(ss[|steps|]), |ss[|steps|].queue|
  {
    var s := ss[|steps|];
    if s.done {
      return ss, steps, p;
    }
    var st := Onward(m, policy, s);
    OnwardIsFair(m, rest, cfg, policy, p, Responses(steps), s);
    OnwardKeeps(m, rest, cfg, policy, p, Responses(steps), s);
    Bounded(m, s);
    OnwardNears(m, policy, s);
    OneStepMore(m, rest, cfg, first, policy, ss, steps, st);
    Room(m, s);
    hide Invariant, FairRun, Made, Next, Possible, Faithful, Obeys, Honest, Ledger, Awaiting, Spent, Rank, Waits;
    hide RefusesSome;
    ts, us, q := Completes(m, rest, cfg, first, policy, ss + [Next(s, st)], steps + [st], Begun(p, s));
  }

  lemma Room(m: Source, s: Dma)
    requires Invariant(m, s)
    ensures s.transferred <= s.cfg.TotalWords() && s.toBuffer <= s.cfg.TotalWords()
  {
    hide Transfer;
  }

  // ---- Exactly when completion means acknowledged ----

  /** The engine before the transfer: it waits for nothing. */
  predicate Rests(rest: Dma, cfg: Config) {
    && |rest.buffer| == CAPACITY && cfg.Valid() && rest.pendingWrites <= 0 && rest.asked == None
    && AllLegal(rest.sent) && AllLegal(rest.queue)
  }

  /** The bus takes none, or all, of the write packets of the phase after `w` words at once. */
  predicate TakesNone(cfg: Config, policy: Policy, w: nat) {
    forall k: nat :: k < PhasePackets(cfg, w) ==> !policy(w)(k)
  }

  predicate TakesAll(cfg: Config, policy: Policy, w: nat) {
    forall k: nat :: k < PhasePackets(cfg, w) ==> policy(w)(k)
  }

  lemma {:induction false} CountExtremes(taken: nat -> bool, k: nat, n: nat)
    ensures CountTaken(taken, k, n) == 0 <==> forall j: nat :: k <= j < k + n ==> !taken(j)
    ensures CountTaken(taken, k, n) == n <==> forall j: nat :: k <= j < k + n ==> taken(j)
    decreases n
  {
    if n > 0 {
      CountExtremes(taken, k + 1, n - 1);
    }
  }

  lemma TakenExtremes(cfg: Config, policy: Policy, w: nat)
    ensures TakenIn(cfg, policy, w) == 0 <==> TakesNone(cfg, policy, w)
    ensures TakenIn(cfg, policy, w) == PhasePackets(cfg, w) <==> TakesAll(cfg, policy, w)
  {
    hide PhasePackets, CountTaken;
    CountExtremes(policy(w), 0, PhasePackets(cfg, w));
  }

  /** A run of no steps. */
  lemma Starts(m: Source, rest: Dma, cfg: Config, policy: Policy)
    requires Rests(rest, cfg)
    ensures FairRun(m, rest, cfg, true, policy, [Enable(rest, cfg, true)], [])
    ensures OnCourse(m, rest, cfg, policy, 0, 0, Enable(rest, cfg, true))
  {
    EnableStarts(m, rest, cfg, true);
    StartLedger(m, rest, cfg, true);
    StartConserved(rest, cfg, true);
    StartsAtZero(rest, cfg, true);
    StartsReading(m, rest, cfg);
    StartsAskedOut(m, rest, cfg);
    hide Enable, Invariant, Made;
  }

  lemma StartsAskedOut(m: Source, rest: Dma, cfg: Config)
    requires Rests(rest, cfg)
    ensures AskedOut(Enable(rest, cfg, true))
  {
    hide ScheduleReads;
    var s := rest.(cfg := cfg, enabled := true, done := false, phase := Reading, job := NoJob,
                   transferred := 0, toBuffer := 0, bufferIndex := 0, written := []);
    ReadsAskOut(s, Always(true));
  }

  lemma StartsReading(m: Source, rest: Dma, cfg: Config)
    requires Rests(rest, cfg)
    ensures !Awaiting(Enable(rest, cfg, true))
  {
    WordCount(cfg);
  }

  // ---- After completion ----

  /** A finished engine, with whatever responses still out, can be enabled for any other transfer; the debt of
      responses and the words in the buffer carry over, nothing else does. */
  lemma RestsAgain(m: Source, rest: Dma, cfg: Config, first: bool, ss: seq<Dma>, steps: seq<Step>, next: Config)
    requires IsRun(m, rest, cfg, first, ss, steps) && |ss| == |steps| + 1 && ss[|steps|].done && next.Valid()
    ensures Rests(ss[|steps|], next)
    ensures forall taken: bool ::
              var was, n := ss[|steps|], Enable(ss[|steps|], next, taken);
              && n.cfg == next && n.enabled && !n.done && n.transferred == n.toBuffer == n.bufferIndex == 0
              && n.buffer == was.buffer && n.pendingWrites == was.pendingWrites && n.pendingReads == 1
  {
    hide IsRun, Transfer, WritesOf, AllLegal;
    RunKeeps(m, rest, cfg, first, ss, steps, |steps|);
    WordCount(next);
    hide Invariant, Conserved, ReadRequests, ReadChunk, Config.TotalWords;
  }

  /** `k` responses one after the other. */
  function Answers(k: nat): seq<Step> { seq(k, _ => WriteResponse(Always(true))) }

  /** The responses that are still out at DONE, or any number of others, come in later without any effect but
      on the count, which they drive below zero. */
  lemma {:induction false} AnswersAfterDone(m: Source, rest: Dma, cfg: Config, first: bool, ss: seq<Dma>,
                                            steps: seq<Step>, k: nat) returns (ts: seq<Dma>)
    requires IsRun(m, rest, cfg, first, ss, steps) && |ss| == |steps| + 1 && ss[|steps|].done
    ensures IsRun(m, rest, cfg, first, ts, steps + Answers(k)) && |ts| == |ss| + k
    ensures ts[|steps| + k] == ss[|steps|].(pendingWrites := ss[|steps|].pendingWrites - k)
    decreases k
  {
    hide Invariant, Conserved, HandleWrite, Enable, AllLegal;
    if k == 0 {
      ts := ss;
      assert steps + Answers(0) == steps;
    } else {
      ts := AnswersAfterDone(m, rest, cfg, first, ss, steps, k - 1);
      var us := steps + Answers(k - 1);
      var s := ts[|us|];
      RunKeeps(m, rest, cfg, first, ts, us, |us|);
      DoneRests(m, s);
      Bounded(m, s);
      LateResponse(m, s, Always(true));
      assert steps + Answers(k) == us + [WriteResponse(Always(true))];
      var vs := ts + [HandleWrite(s, Always(true))];
      forall i | 0 <= i < |us| + 1
        ensures DmaRuns.Linked(m, vs, steps + Answers(k), i)
      {
        if i < |us| { assert DmaRuns.Linked(m, ts, us, i); }
      }
      ts := vs;
    }
  }

  /** A transfer can complete if and only if the bus refuses some write packet of every phase. */
  lemma CompletesExactly(m: Source, rest: Dma, cfg: Config, policy: Policy)
    requires Rests(rest, cfg)
    ensures Completable(m, rest, cfg, policy) <==> forall w :: PhaseStart(cfg, w) ==> !TakesAll(cfg, policy, w)
  {
    hide Invariant, Made, PhaseStart, TakenIn, TakesAll, IsRun, Enable, Awaiting;
    forall w { TakenExtremes(cfg, policy, w); }
    if Completable(m, rest, cfg, policy) {
      var first: bool, ss: seq<Dma>, steps: seq<Step> :| FairRun(m, rest, cfg, first, policy, ss, steps)
        && ss[|steps|].done;
      forall w | PhaseStart(cfg, w)
        ensures !TakesAll(cfg, policy, w)
      {
        if TakesAll(cfg, policy, w) { NeverDone(m, rest, cfg, first, policy, ss, steps, w); }
      }
    }
    if forall w :: PhaseStart(cfg, w) ==> !TakesAll(cfg, policy, w) {
      Starts(m, rest, cfg, policy);
      var ts, us, q := Completes(m, rest, cfg, true, policy, [Enable(rest, cfg, true)], [], 0);
    }
  }

  lemma NeverDone(m: Source, rest: Dma, cfg: Config, first: bool, policy: Policy, ss: seq<Dma>, steps: seq<Step>,
                  w: nat)
    requires FairRun(m, rest, cfg, first, policy, ss, steps) && PhaseStart(cfg, w) && TakesAll(cfg, policy, w)
    ensures !ss[|steps|].done
  {
    hide Invariant, Conserved, IsRun, TakenIn, TakesAll, Awaiting;
    TakenExtremes(cfg, policy, w);
    TakenPhaseStays(m, rest, cfg, first, policy, ss, steps, w, |steps|);
    RunKeeps(m, rest, cfg, first, ss, steps, |steps|);
    DoneRests(m, ss[|steps|]);
  }

  /** Completion means acknowledged in every honest run if and only if the bus takes no write packet
      at once, or takes all those of some phase, in which case the transfer never completes. */
  lemma SafeExactly(m: Source, rest: Dma, cfg: Config, policy: Policy)
    requires Rests(rest, cfg)
    ensures Safe(m, rest, cfg, policy) <==>
              || (forall w :: PhaseStart(cfg, w) ==> TakesNone(cfg, policy, w))
              || (exists w :: PhaseStart(cfg, w) && TakesAll(cfg, policy, w))
  {
    hide Invariant, Made, PhaseStart, TakenIn, TakesAll, TakesNone, IsRun, Enable, Awaiting, Rests;
    forall w { TakenExtremes(cfg, policy, w); }
    if forall w :: PhaseStart(cfg, w) ==> TakesNone(cfg, policy, w) {
      forall first: bool, ss: seq<Dma>, steps: seq<Step> | FairRun(m, rest, cfg, first, policy, ss, steps)
        && ss[|steps|].done
        ensures Made(ss[|steps|]) == Made(rest) + Responses(steps)
      {
        RefusingIsSafe(m, rest, cfg, first, policy, ss, steps, |steps|);
        assert steps[..|steps|] == steps;
      }
    } else if w :| PhaseStart(cfg, w) && TakesAll(cfg, policy, w) {
      forall first: bool, ss: seq<Dma>, steps: seq<Step> | FairRun(m, rest, cfg, first, policy, ss, steps)
        ensures !ss[|steps|].done
      {
        NeverDone(m, rest, cfg, first, policy, ss, steps, w);
      }
    } else {
      var w :| PhaseStart(cfg, w) && !TakesNone(cfg, policy, w);
      SomeTaken(m, rest, cfg, policy, w);
    }
  }

  /** With something refused in every phase and something taken in one, a fair run completes with as
      many packets unanswered as were taken at once. */
  lemma SomeTaken(m: Source, rest: Dma, cfg: Config, policy: Policy, w: nat)
    requires Rests(rest, cfg) && PhaseStart(cfg, w) && TakenIn(cfg, policy, w) > 0
    requires forall v :: PhaseStart(cfg, v) ==> RefusesSome(cfg, policy, v)
    ensures !Safe(m, rest, cfg, policy)
  {
    Starts(m, rest, cfg, policy);
    hide Made, TakenIn, IsRun, Enable, Awaiting, RefusesSome, PhasePackets;
    var ts, us, q := Completes(m, rest, cfg, true, policy, [Enable(rest, cfg, true)], [], 0);
    DoneRests(m, ts[|us|]);
    SpentOn(cfg, policy, w, q);
    hide *;
  }

  lemma SpentOn(cfg: Config, policy: Policy, w: nat, q: nat)
    requires PhaseStart(cfg, w) && q * CAPACITY >= cfg.TotalWords()
    ensures Spent(cfg, policy, q) >= TakenIn(cfg, policy, w)
  {
    hide TakenIn, PhasePackets, Config.TotalWords;
    var p := w / CAPACITY;
    PhaseBefore(w, cfg.TotalWords(), q);
    SpentGrows(cfg, policy, p + 1, q);
  }

  lemma PhaseBefore(w: nat, total: nat, q: nat)
    requires w % CAPACITY == 0 && w < total <= q * CAPACITY
    ensures w == w / CAPACITY * CAPACITY && w / CAPACITY < q
  {}
}
