/** The accelerator programming the DMA engine over an in-order bus and polling it for completion. */
module Handshake {
  import opened Words
  import opened DmaModel
  import opened DmaProof
  import opened DmaRuns
  import opened Routing

  /** The registers of the accelerator that describe the two operand matrices: sizes, SRAM offsets,
      addresses in data memory, and row strides. */
  datatype Setup = Setup(m: nat, k: nat, aAddr: Word, bAddr: Word, aHome: Word, bHome: Word, strideA: nat,
    strideB: nat) {
    predicate Valid() { 1 <= m <= 0x1000 && 1 <= k <= 0x1000 && strideA < 0x100 && strideB < 0x100 }
  }

  /** Bitwise or. */
  function Or(a: nat, b: nat): nat {
    if a == 0 then b else 2 * Or(a / 2, b / 2) + (if a % 2 == 1 || b % 2 == 1 then 1 else 0)
  }

  /** The size register as the accelerator packs it from a stride and two counts less one. */
  function Packed(stride: nat, width: nat, height: nat): Word {
    Or(Or(Or(stride * 0x100_0000, stride * 0x1_0000), width * 0x100), height) % WORDS
  }

  /** Matrix A keeps eight bits of each count; matrix B is fetched with the counts of A, unmasked. */
  function SizeA(p: Setup): Word
    requires p.Valid()
  {
    Packed(p.strideA, (p.k - 1) % 0x100, (p.m - 1) % 0x100)
  }

  function SizeB(p: Setup): Word
    requires p.Valid()
  {
    Packed(p.strideB, p.k - 1, p.m - 1)
  }

  /** What the engine is told to do for each matrix. */
  datatype Order = Order(src: Word, dst: Word, size: Word)

  function OrderA(p: Setup): Order
    requires p.Valid()
  {
    Order(p.aHome, (p.aAddr + SRAM_BASE) % WORDS, SizeA(p))
  }

  function OrderB(p: Setup): Order
    requires p.Valid()
  {
    Order(p.bHome, (p.bAddr + SRAM_BASE) % WORDS, SizeB(p))
  }

  function ConfigOf(o: Order): (c: Config)
    ensures c.Valid()
  {
    Decode(o.src, o.dst, o.size)
  }

  // ---- The system ----

  datatype Msg = SetSource(w: Word) | SetDest(w: Word) | SetSize(w: Word) | SetEnable | Poll

  datatype Accel = ReadMatA | ReadMatB | Compute

  /** What is between the two: the accelerator's requests on their way, in order, a poll scheduled
      for later, a poll the engine has popped and will answer later, the answer on its way back, and
      the engine's registers. */
  datatype Link = Link(channel: seq<Msg>, timer: bool, reading: bool, answer: Option<bool>, src: Word, dst: Word,
    size: Word)

  /** `starts` counts how often the multiplication has been started. */
  datatype System = System(accel: Accel, starts: nat, link: Link, dma: Dma)

  datatype Happening =
    | TimerFires
    | Deliver(taken: bool)
    | ReadDone
    | Receive
    | Engine(st: Step)

  function Commands(o: Order): seq<Msg> { [SetSource(o.src), SetDest(o.dst), SetSize(o.size), SetEnable] }

  function Command(o: Order, i: nat): Msg {
    if i < 4 then Commands(o)[i] else Poll
  }

  /** Programs the engine and schedules the first poll. */
  function Ask(l: Link, o: Order): Link {
    l.(channel := l.channel + Commands(o), timer := true)
  }

  /** ENABLE of the accelerator. */
  function Start(s: System, p: Setup): System
    requires p.Valid()
  {
    s.(accel := ReadMatA, link := Ask(s.link, OrderA(p)))
  }

  predicate CanHappen(s: System, h: Happening) {
    && Shape(s.dma)
    && match h
       case TimerFires => s.link.timer
       case Deliver(_) => s.link.channel != []
       case ReadDone => s.link.reading
       case Receive => s.link.answer.Some?
       case Engine(st) => Possible(s.dma, st)
  }

  /** The engine pops the request at the head: registers are set at once, a poll is answered later. */
  function Popped(l: Link): Link
    requires l.channel != []
  {
    var rest := l.(channel := l.channel[1..]);
    match l.channel[0]
    case SetSource(w) => rest.(src := w)
    case SetDest(w) => rest.(dst := w)
    case SetSize(w) => rest.(size := w)
    case SetEnable => rest
    case Poll => rest.(reading := true)
  }

  /** ENABLE starts the engine on what its registers hold. */
  function Commanded(l: Link, d: Dma, taken: bool): Dma
    requires l.channel != [] && Shape(d)
  {
    if l.channel[0] == SetEnable then Enable(d, Decode(l.src, l.dst, l.size), taken) else d
  }

  /** The accelerator gets the answer to a poll. */
  function Received(s: System, p: Setup): System
    requires p.Valid() && s.link.answer.Some?
  {
    var l := s.link.(answer := None);
    if !s.link.answer.value then s.(link := l.(timer := true))
    else match s.accel
      case ReadMatA => s.(accel := ReadMatB, link := Ask(l, OrderB(p)))
      case ReadMatB => s.(accel := Compute, starts := s.starts + 1, link := l)
      case Compute => s.(link := l)
  }

  function After(s: System, p: Setup, h: Happening): System
    requires p.Valid() && CanHappen(s, h)
  {
    match h
    case TimerFires => s.(link := s.link.(timer := false, channel := s.link.channel + [Poll]))
    case Deliver(taken) => s.(link := Popped(s.link), dma := Commanded(s.link, s.dma, taken))
    case ReadDone => s.(link := s.link.(reading := false, answer := Some(s.dma.done)))
    case Receive => Received(s, p)
    case Engine(st) => s.(dma := Next(s.dma, st))
  }

  // ---- What every step keeps ----

  /** The engine rests, having issued the write requests `all`. */
  predicate Resting(all: multiset<WriteReq>, d: Dma) {
    && Shape(d) && d.phase == Idle && d.job == NoJob && d.asked == None && d.pendingWrites <= 0
    && AllLegal(d.sent) && AllLegal(d.queue)
    && multiset(WritesOf(d.sent)) + multiset(WritesOf(d.queue)) == all
  }

  /** The engine works on order `o`, or has finished it, on top of the write requests `all`. */
  predicate Working(m: Source, o: Order, all: multiset<WriteReq>, d: Dma) {
    Invariant(m, d) && Conserved(all, d) && d.cfg == ConfigOf(o)
  }

  /** A poll is on its way, behind the commands. */
  predicate Polled(channel: seq<Msg>) { channel != [] && channel[|channel| - 1] == Poll }

  /** The commands still on their way. */
  function Unpolled(channel: seq<Msg>): seq<Msg> {
    if Polled(channel) then channel[..|channel| - 1] else channel
  }

  function One(b: bool): nat { if b then 1 else 0 }

  predicate Quiet(l: Link) { l.channel == [] && !l.timer && !l.reading && l.answer == None }

  /** The commands of `o` arrive in order, exactly one poll is under way, and it cannot be answered
      before the last command is delivered. */
  predicate Carrying(o: Order, l: Link) {
    var left := Unpolled(l.channel);
    && One(l.timer) + One(Polled(l.channel)) + One(l.reading) + One(l.answer.Some?) == 1
    && |left| <= 4 && (forall i :: 0 <= i < |left| ==> left[i] == Command(o, i + 4 - |left|))
    && (|left| <= 3 ==> l.src == o.src) && (|left| <= 2 ==> l.dst == o.dst) && (|left| <= 1 ==> l.size == o.size)
    && (left != [] ==> !l.reading && l.answer == None)
  }

  /** Until the last command of order `o` is delivered the engine rests; afterwards it works on `o`,
      and an answer of 1 means that it has finished it. */
  predicate Serving(m: Source, o: Order, all: multiset<WriteReq>, l: Link, d: Dma) {
    && Carrying(o, l)
    && if Unpolled(l.channel) != [] then Resting(all, d)
       else Working(m, o, all, d) && (l.answer == Some(true) ==> d.done)
  }

  function Issued(m: Source, o: Order): multiset<WriteReq> {
    multiset(Transfer(ConfigOf(o), m, ConfigOf(o).TotalWords()))
  }

  predicate Good(m: Source, p: Setup, before: multiset<WriteReq>, s: System)
    requires p.Valid()
  {
    match s.accel
    case ReadMatA => s.starts == 0 && Serving(m, OrderA(p), before, s.link, s.dma)
    case ReadMatB => s.starts == 0 && Serving(m, OrderB(p), before + Issued(m, OrderA(p)), s.link, s.dma)
    case Compute =>
      && s.starts == 1 && Quiet(s.link)
      && Resting(before + Issued(m, OrderA(p)) + Issued(m, OrderB(p)), s.dma)
  }

  predicate Honest(m: Source, s: System, h: Happening) { h.Engine? ==> Faithful(m, s.dma, h.st) }

  // The engine under an order.

  lemma RestingStays(all: multiset<WriteReq>, d: Dma, st: Step)
    requires Resting(all, d) && Possible(d, st)
    ensures Resting(all, Next(d, st))
  {
    hide WritesOf;
    if st.Retry? && d.queue != [] && st.took {
      WritesOfSplits(d.sent, [d.queue[0]]);
      assert [d.queue[0]] + d.queue[1..] == d.queue;
      WritesOfSplits([d.queue[0]], d.queue[1..]);
      var a, b, c := WritesOf(d.sent), WritesOf([d.queue[0]]), WritesOf(d.queue[1..]);
      assert multiset(a + b) == multiset(a) + multiset(b) && multiset(b + c) == multiset(b) + multiset(c);
    }
  }

  /** A finished engine rests with its transfer added to what it had issued before. */
  lemma FinishedRests(m: Source, o: Order, all: multiset<WriteReq>, d: Dma)
    requires Working(m, o, all, d) && d.done
    ensures Resting(all + Issued(m, o), d)
  {
    hide WritesOf, Transfer, AllLegal;
  }

  lemma EnabledWorks(m: Source, o: Order, all: multiset<WriteReq>, d: Dma, taken: bool)
    requires Resting(all, d)
    ensures Working(m, o, all, Enable(d, ConfigOf(o), taken))
  {
    hide WritesOf, Transfer, AllLegal, Invariant, Enable, ConfigOf;
    EnableStarts(m, d, ConfigOf(o), taken);
    StartConserved(d, ConfigOf(o), taken);
  }

  lemma WorkingStays(m: Source, o: Order, all: multiset<WriteReq>, d: Dma, st: Step)
    requires Working(m, o, all, d) && Possible(d, st) && Faithful(m, d, st)
    ensures Shape(d) && Working(m, o, all, Next(d, st)) && (d.done ==> Next(d, st).done)
  {
    Bounded(m, d);
    hide Invariant, Conserved, Next, Faithful, ConfigOf, Possible, Shape;
    StepKeeps(m, d, st);
    StepConserves(m, all, d, st);
    CfgKept(d, st);
    if d.done { DoneStays(m, d, st); }
  }

  lemma DoneStays(m: Source, d: Dma, st: Step)
    requires Invariant(m, d) && d.done && Possible(d, st)
    ensures Next(d, st).done
  {
    hide Transfer;
  }

  lemma EngineServes(m: Source, o: Order, all: multiset<WriteReq>, l: Link, d: Dma, st: Step)
    requires Serving(m, o, all, l, d) && Shape(d) && Possible(d, st) && Faithful(m, d, st)
    ensures Serving(m, o, all, l, Next(d, st))
  {
    hide Carrying, Resting, Working, Next, Faithful, Unpolled;
    if Unpolled(l.channel) != [] { RestingStays(all, d, st); } else { WorkingStays(m, o, all, d, st); }
  }

  // The messages.

  lemma PopCarries(o: Order, l: Link)
    requires Carrying(o, l) && l.channel != []
    ensures Carrying(o, Popped(l))
    ensures Unpolled(l.channel) == [] ==> l.channel[0] == Poll && Unpolled(Popped(l).channel) == []
    ensures |Unpolled(l.channel)| > 1 ==> l.channel[0] != SetEnable && Unpolled(Popped(l).channel) != []
    ensures |Unpolled(l.channel)| == 1 ==> l.channel[0] == SetEnable && Unpolled(Popped(l).channel) == []
    ensures |Unpolled(l.channel)| == 1 ==> Decode(l.src, l.dst, l.size) == ConfigOf(o)
    ensures Popped(l).answer == l.answer
  {
    hide Decode;
    var left := Unpolled(l.channel);
    if left != [] {
      assert l.channel[0] == left[0] == Command(o, 4 - |left|);
      assert Unpolled(l.channel[1..]) == left[1..];
    }
  }

  lemma DeliverServes(m: Source, o: Order, all: multiset<WriteReq>, l: Link, d: Dma, taken: bool)
    requires Serving(m, o, all, l, d) && l.channel != [] && Shape(d)
    ensures Serving(m, o, all, Popped(l), Commanded(l, d, taken))
  {
    PopCarries(o, l);
    AnswerWaits(o, l);
    hide Carrying, Resting, Working, Enable, Unpolled, Popped, Decode, ConfigOf;
    if |Unpolled(l.channel)| == 1 { EnabledWorks(m, o, all, d, taken); }
  }

  lemma AnswerWaits(o: Order, l: Link)
    requires Carrying(o, l) && l.channel != []
    ensures l.answer == None
  {}

  lemma TimerServes(m: Source, o: Order, all: multiset<WriteReq>, l: Link, d: Dma)
    requires Serving(m, o, all, l, d) && l.timer
    ensures Serving(m, o, all, l.(timer := false, channel := l.channel + [Poll]), d)
  {
    TimerCarries(o, l);
    hide Resting, Working, Carrying, Unpolled;
  }

  lemma TimerCarries(o: Order, l: Link)
    requires Carrying(o, l) && l.timer
    ensures var n := l.(timer := false, channel := l.channel + [Poll]);
            Carrying(o, n) && Unpolled(n.channel) == Unpolled(l.channel)
  {
    assert Unpolled(l.channel + [Poll]) == l.channel;
  }

  lemma ReadServes(m: Source, o: Order, all: multiset<WriteReq>, l: Link, d: Dma)
    requires Serving(m, o, all, l, d) && l.reading
    ensures Serving(m, o, all, l.(reading := false, answer := Some(d.done)), d)
  {
    hide Resting, Working;
  }

  /** A new order reaches a resting engine. */
  lemma AskServes(m: Source, o: Order, all: multiset<WriteReq>, l: Link, d: Dma)
    requires Resting(all, d) && Quiet(l)
    ensures Serving(m, o, all, Ask(l, o), d)
  {
    hide Resting, Working, Carrying, Quiet, Unpolled;
    AskCarries(o, l);
  }

  lemma AskCarries(o: Order, l: Link)
    requires Quiet(l)
    ensures Carrying(o, Ask(l, o)) && Unpolled(Ask(l, o).channel) != []
  {
    hide Commands, Carrying, Unpolled, Polled;
    NothingBefore(l.channel, Commands(o));
    CarriesAll(o, Ask(l, o));
  }

  lemma NothingBefore(b: seq<Msg>, c: seq<Msg>)
    requires b == []
    ensures b + c == c
  {}

  /** All four commands are on their way, and a poll is scheduled. */
  lemma CarriesAll(o: Order, l: Link)
    requires l.channel == Commands(o) && l.timer && !l.reading && l.answer == None
    ensures Carrying(o, l) && Unpolled(l.channel) != []
  {
    hide Commands, Command;
    FourCommands(o);
  }

  lemma FourCommands(o: Order)
    ensures |Commands(o)| == 4 && !Polled(Commands(o)) && forall i :: 0 <= i < 4 ==> Commands(o)[i] == Command(o, i)
  {}

  /** What an answer tells about the order being served. */
  lemma AnswerServes(m: Source, o: Order, all: multiset<WriteReq>, l: Link, d: Dma)
    requires Serving(m, o, all, l, d) && l.answer.Some?
    ensures Quiet(l.(answer := None))
    ensures l.answer == Some(false) ==> Serving(m, o, all, l.(answer := None, timer := true), d)
    ensures l.answer == Some(true) ==> Resting(all + Issued(m, o), d)
  {
    hide Resting, Working, Issued;
    if l.answer == Some(true) { FinishedRests(m, o, all, d); }
  }

  lemma ReceiveGood(m: Source, p: Setup, before: multiset<WriteReq>, s: System)
    requires p.Valid() && Good(m, p, before, s) && s.link.answer.Some?
    ensures Good(m, p, before, Received(s, p))
  {
    hide Serving, Issued, Resting, OrderA, OrderB, Ask;
    match s.accel {
      case ReadMatA =>
        AnswerServes(m, OrderA(p), before, s.link, s.dma);
        if s.link.answer.value { AskServes(m, OrderB(p), before + Issued(m, OrderA(p)), s.link.(answer := None),
          s.dma); }
      case ReadMatB =>
        AnswerServes(m, OrderB(p), before + Issued(m, OrderA(p)), s.link, s.dma);
      case Compute =>
    }
  }

  lemma StepGood(m: Source, p: Setup, before: multiset<WriteReq>, s: System, h: Happening)
    requires p.Valid() && Good(m, p, before, s) && CanHappen(s, h) && Honest(m, s, h)
    ensures Good(m, p, before, After(s, p, h))
  {
    hide Serving, Issued, Resting, OrderA, OrderB, Next, Popped, Commanded, Received, Possible, Faithful, Shape;
    var o := if s.accel == ReadMatA then OrderA(p) else OrderB(p);
    var all := if s.accel == ReadMatA then before else before + Issued(m, OrderA(p));
    match h {
      case TimerFires => if s.accel != Compute { TimerServes(m, o, all, s.link, s.dma); }
      case Deliver(taken) => if s.accel != Compute { DeliverServes(m, o, all, s.link, s.dma, taken); }
      case ReadDone => if s.accel != Compute { ReadServes(m, o, all, s.link, s.dma); }
      case Receive => ReceiveGood(m, p, before, s);
      case Engine(st) =>
        if s.accel == Compute {
          RestingStays(before + Issued(m, OrderA(p)) + Issued(m, OrderB(p)), s.dma, st);
        } else {
          EngineServes(m, o, all, s.link, s.dma, st);
        }
    }
  }

  // ---- Runs ----

  predicate Linked(m: Source, p: Setup, ss: seq<System>, hs: seq<Happening>, i: nat)
    requires p.Valid() && i < |hs| && |ss| == |hs| + 1
  {
    CanHappen(ss[i], hs[i]) && Honest(m, ss[i], hs[i]) && ss[i + 1] == After(ss[i], p, hs[i])
  }

  /** A run from ENABLE: nothing is under way, the engine rests in whatever state it was left, its
      done register set or not, with the write requests `before` behind it. */
  predicate IsRun(m: Source, p: Setup, before: multiset<WriteReq>, s: System, ss: seq<System>, hs: seq<Happening>) {
    && p.Valid() && Resting(before, s.dma) && Quiet(s.link) && s.starts == 0
    && |ss| == |hs| + 1 && ss[0] == Start(s, p)
    && forall i {:trigger Linked(m, p, ss, hs, i)} :: 0 <= i < |hs| ==> Linked(m, p, ss, hs, i)
  }

  lemma {:induction false} RunGood(m: Source, p: Setup, before: multiset<WriteReq>, s: System, ss: seq<System>,
                                   hs: seq<Happening>, i: nat)
    requires IsRun(m, p, before, s, ss, hs) && i < |ss|
    ensures Good(m, p, before, ss[i])
  {
    hide Resting, Serving, OrderA, OrderB, After, CanHappen, Honest, Ask, Quiet;
    if i == 0 {
      AskServes(m, OrderA(p), before, s.link, s.dma);
    } else {
      RunGood(m, p, before, s, ss, hs, i - 1);
      assert Linked(m, p, ss, hs, i - 1);
      StepGood(m, p, before, ss[i - 1], hs[i - 1]);
    }
  }

  /** No stale completion: whatever the done register held before, when the answer 1 reaches the
      accelerator while it fetches a matrix, the engine has been enabled for that very matrix and
      has issued all of it. */
  lemma AnswerIsFresh(m: Source, p: Setup, before: multiset<WriteReq>, s: System, ss: seq<System>, hs: seq<Happening>,
                      i: nat)
    requires IsRun(m, p, before, s, ss, hs) && i < |ss| && ss[i].link.answer == Some(true)
    ensures ss[i].accel != Compute && ss[i].dma.done
    ensures var o := if ss[i].accel == ReadMatA then OrderA(p) else OrderB(p);
            ss[i].dma.cfg == ConfigOf(o) && ss[i].dma.written == Transfer(ConfigOf(o), m, ConfigOf(o).TotalWords())
  {
    hide Transfer, OrderA, OrderB, ConfigOf;
    RunGood(m, p, before, s, ss, hs, i);
  }

  /** The multiplication is started at most once, and exactly when the accelerator has left the two
      fetching phases; by then every word of both matrices has been issued once, and nothing else. */
  lemma ComputesOnce(m: Source, p: Setup, before: multiset<WriteReq>, s: System, ss: seq<System>, hs: seq<Happening>,
                     i: nat)
    requires IsRun(m, p, before, s, ss, hs) && i < |ss|
    ensures ss[i].starts == if ss[i].accel == Compute then 1 else 0
    ensures ss[i].accel == Compute ==>
              multiset(WritesOf(ss[i].dma.sent)) + multiset(WritesOf(ss[i].dma.queue)) ==
                before + Issued(m, OrderA(p)) + Issued(m, OrderB(p))
  {
    hide Transfer, OrderA, OrderB, ConfigOf, Issued, WritesOf;
    RunGood(m, p, before, s, ss, hs, i);
  }

  /** Once multiplying, the system never fetches again. */
  lemma {:induction false} StaysComputing(m: Source, p: Setup, before: multiset<WriteReq>, s: System, ss: seq<System>,
                                          hs: seq<Happening>, i: nat, j: nat)
    requires IsRun(m, p, before, s, ss, hs) && i <= j < |ss| && ss[i].accel == Compute
    ensures ss[j].accel == Compute && ss[j].starts == ss[i].starts
  {
    hide Resting, OrderA, OrderB, Next, Serving;
    if i < j {
      StaysComputing(m, p, before, s, ss, hs, i, j - 1);
      RunGood(m, p, before, s, ss, hs, j - 1);
      assert Linked(m, p, ss, hs, j - 1);
    }
  }

  /** A poll can be sent as soon as one is scheduled, behind whatever commands are still on their way; one
      that is answered before the engine is done is sent again, and nothing else happens. */
  lemma EarlyPoll(p: Setup, s: System)
    requires p.Valid() && Shape(s.dma)
    ensures s.link.timer ==>
              CanHappen(s, TimerFires) &&
              After(s, p, TimerFires).link == s.link.(timer := false, channel := s.link.channel + [Poll])
    ensures s.link.reading && !s.dma.done ==>
              && CanHappen(s, ReadDone) && CanHappen(After(s, p, ReadDone), Receive)
              && After(After(s, p, ReadDone), p, Receive) ==
                 s.(link := s.link.(timer := true, reading := false, answer := None))
  {
    hide OrderA, OrderB;
  }

  // ---- The size register ----

  /** Or works bit by bit: on the parts above and below any position. */
  lemma {:induction false} OrSplits(a: nat, b: nat, c: nat, d: nat, k: nat)
    requires b < Pow2(k) && d < Pow2(k)
    ensures Or(b, d) < Pow2(k)
    ensures Or(a * Pow2(k) + b, c * Pow2(k) + d) == Or(a, c) * Pow2(k) + Or(b, d)
  {
    if k > 0 {
      OrSplits(a, b / 2, c, d / 2, k - 1);
      OneBit(a, b, c, d, Pow2(k - 1));
    } else {
      OrZero(a);
    }
  }

  lemma OneBit(a: nat, b: nat, c: nat, d: nat, p: nat)
    requires b < 2 * p && d < 2 * p && Or(a * p + b / 2, c * p + d / 2) == Or(a, c) * p + Or(b / 2, d / 2)
    ensures Or(a * (2 * p) + b, c * (2 * p) + d) == Or(a, c) * (2 * p) + Or(b, d)
  {
    hide Or;
    Doubled(a, p);
    Doubled(c, p);
    Doubled(Or(a, c), p);
    OrHalves(a * p + b / 2, b % 2, c * p + d / 2, d % 2);
    OrHalves(b / 2, b % 2, d / 2, d % 2);
  }

  lemma Doubled(a: nat, p: nat)
    ensures a * (2 * p) == 2 * (a * p) && 0 <= a * p
  {}

  lemma OrHalves(a: nat, x: nat, b: nat, y: nat)
    requires x < 2 && y < 2
    ensures Or(2 * a + x, 2 * b + y) == 2 * Or(a, b) + (if x == 1 || y == 1 then 1 else 0)
  {
    if 2 * a + x == 0 {
      OrOfZero(2 * b + y);
      OrOfZero(b);
    }
  }

  lemma OrOfZero(b: nat)
    ensures Or(0, b) == b
  {}

  lemma {:induction false} OrZero(x: nat)
    ensures Or(x, 0) == x
  {
    if x > 0 { OrZero(x / 2); }
  }

  /** Bit `k` of an or is set when one of the two bits is. */
  lemma {:induction false} OrBits(a: nat, b: nat, k: nat)
    ensures Or(a, b) / Pow2(k) % 2 == 1 <==> a / Pow2(k) % 2 == 1 || b / Pow2(k) % 2 == 1
  {
    hide Or, Pow2;
    OrHalved(a, b);
    if k == 0 {
      BitZero(a);
      BitZero(b);
      BitZero(Or(a, b));
    } else {
      OrBits(a / 2, b / 2, k - 1);
      BitAbove(a, k);
      BitAbove(b, k);
      BitAbove(Or(a, b), k);
    }
  }

  lemma OrHalved(a: nat, b: nat)
    ensures Or(a, b) / 2 == Or(a / 2, b / 2) && (Or(a, b) % 2 == 1 <==> a % 2 == 1 || b % 2 == 1)
  {
    hide Or;
    OrHalves(a / 2, a % 2, b / 2, b % 2);
  }

  lemma BitZero(x: nat)
    ensures x / Pow2(0) == x
  {}

  lemma BitAbove(x: nat, k: nat)
    requires k > 0
    ensures x / Pow2(k) == x / 2 / Pow2(k - 1)
  {
    HalveThenDivide(x, Pow2(k - 1));
  }

  /** The or of two bytes is a byte. */
  lemma OrOfBytes(a: nat, b: nat)
    requires a < 0x100 && b < 0x100
    ensures Or(a, b) < 0x100
  {
    OrSplits(0, a, 0, b, 8);
    EightBits();
  }

  lemma EightBits()
    ensures Pow2(8) == 0x100
  {
    assert Pow2(4) == 0x10;
  }

  /** Or of words, byte by byte from the lowest. */
  lemma OrOfWords(a: nat, b: nat, c: nat, d: nat)
    requires b < 0x100 && d < 0x100
    ensures Or(a * 0x100 + b, c * 0x100 + d) == Or(a, c) * 0x100 + Or(b, d)
  {
    hide Or, Pow2;
    EightBits();
    OrSplits(a, b, c, d, 8);
  }

  lemma OrShifted(a: nat, c: nat)
    ensures Or(a * 0x100, c * 0x100) == Or(a, c) * 0x100
  {
    OrOfWords(a, 0, c, 0);
    OrZero(0);
  }

  /** How the engine reads what the accelerator packs, for counts of up to twelve bits: the bits of a
      count beyond its byte spill into the next field. */
  lemma PackedSpills(stride: nat, width: nat, height: nat, src: Word, dst: Word)
    requires stride < 0x100 && width < 0x1000 && height < 0x1000
    ensures Decode(src, dst, Packed(stride, width, height)) ==
            Config(src, dst, Or(width % 0x100, height / 0x100) + 1, height % 0x100 + 1, stride, Or(stride,
              width / 0x100))
  {
    hide Or, Packed;
    PackedIs(stride, width / 0x100, width % 0x100, height / 0x100, height % 0x100);
    TwoBytes(width);
    TwoBytes(height);
    OrOfBytes(stride, width / 0x100);
    OrOfBytes(width % 0x100, height / 0x100);
    Fields(stride, Or(stride, width / 0x100), Or(width % 0x100, height / 0x100), height % 0x100);
  }

  lemma PackedIs(stride: nat, w1: nat, w0: nat, h1: nat, h0: nat)
    requires stride < 0x100 && w1 < 0x100 && w0 < 0x100 && h1 < 0x100 && h0 < 0x100
    ensures Packed(stride, w1 * 0x100 + w0, h1 * 0x100 + h0) ==
            ((stride * 0x100 + Or(stride, w1)) * 0x100 + Or(w0, h1)) * 0x100 + h0
  {
    hide Or, Packed;
    StridesPacked(stride);
    WidthPacked(stride, w1, w0);
    HeightPacked(stride, Or(stride, w1), w0, h1, h0);
    OrOfBytes(stride, w1);
    OrOfBytes(w0, h1);
    Fields(stride, Or(stride, w1), Or(w0, h1), h0);
    var both := (stride * 0x100 + stride) * 0x1_0000;
    var upper := ((stride * 0x100 + Or(stride, w1)) * 0x100 + w0) * 0x100;
    PackedFrom(stride, w1 * 0x100 + w0, h1 * 0x100 + h0, both, upper, ((stride * 0x100 + Or(stride,
      w1)) * 0x100 + Or(w0, h1)) * 0x100 + h0);
  }

  lemma PackedFrom(stride: nat, width: nat, height: nat, both: nat, upper: nat, all: nat)
    requires Or(stride * 0x100_0000, stride * 0x1_0000) == both && Or(both, width * 0x100) == upper
    requires Or(upper, height) == all
    requires all < WORDS
    ensures Packed(stride, width, height) == all
  {
    hide Or;
  }

  lemma StridesPacked(stride: nat)
    requires stride < 0x100
    ensures Or(stride * 0x100_0000, stride * 0x1_0000) == (stride * 0x100 + stride) * 0x1_0000
  {
    hide Or;
    OrShifted(stride * 0x1_0000, stride * 0x100);
    OrShifted(stride * 0x100, stride);
    OrOfWords(stride, 0, 0, stride);
    OrZero(stride);
    OrOfZero(stride);
  }

  lemma WidthPacked(stride: nat, w1: nat, w0: nat)
    requires stride < 0x100 && w1 < 0x100 && w0 < 0x100
    ensures Or((stride * 0x100 + stride) * 0x1_0000, (w1 * 0x100 + w0) * 0x100) ==
            ((stride * 0x100 + Or(stride, w1)) * 0x100 + w0) * 0x100
  {
    hide Or;
    OrShifted((stride * 0x100 + stride) * 0x100, w1 * 0x100 + w0);
    OrOfWords(stride * 0x100 + stride, 0, w1, w0);
    OrOfWords(stride, stride, 0, w1);
    OrZero(stride);
    OrOfZero(w0);
  }

  lemma HeightPacked(stride: nat, s1: nat, w0: nat, h1: nat, h0: nat)
    requires w0 < 0x100 && h1 < 0x100 && h0 < 0x100
    ensures Or(((stride * 0x100 + s1) * 0x100 + w0) * 0x100, h1 * 0x100 + h0) ==
            ((stride * 0x100 + s1) * 0x100 + Or(w0, h1)) * 0x100 + h0
  {
    hide Or;
    OrOfWords((stride * 0x100 + s1) * 0x100 + w0, 0, h1, h0);
    OrOfWords(stride * 0x100 + s1, w0, 0, h1);
    OrZero(stride * 0x100 + s1);
    OrOfZero(h0);
  }

  /** Packing and decoding the size register agree while every field fits its byte. */
  lemma PackedDecodes(stride: nat, width: nat, height: nat, src: Word, dst: Word)
    requires stride < 0x100 && width < 0x100 && height < 0x100
    ensures Decode(src, dst, Packed(stride, width, height)) == Config(src, dst, width + 1, height + 1, stride, stride)
  {
    hide Or, Decode, Packed;
    PackedSpills(stride, width, height, src, dst);
    OneByte(width);
    OneByte(height);
    OrZero(width);
    OrZero(stride);
  }

  lemma OneByte(x: nat)
    requires x < 0x100
    ensures x % 0x100 == x && x / 0x100 == 0
  {}

  lemma TwoBytes(x: nat)
    ensures x == x / 0x100 * 0x100 + x % 0x100 && x % 0x100 < 0x100
  {}

  /** What the engine makes of the orders, for every M and K up to 4096: A by the low bytes of its counts, B
      by the counts of A with what spills out of their bytes. */
  lemma OrdersDecoded(p: Setup)
    requires 1 <= p.m <= 4096 && 1 <= p.k <= 4096 && p.strideA < 256 && p.strideB < 256
    ensures ConfigOf(OrderA(p)) ==
            Config(p.aHome, (p.aAddr + 0x2_0000) % 0x1_0000_0000, (p.k - 1) % 256 + 1, (p.m - 1) % 256 + 1,
                   p.strideA, p.strideA)
    ensures ConfigOf(OrderB(p)) ==
            Config(p.bHome, (p.bAddr + 0x2_0000) % 0x1_0000_0000, Or((p.k - 1) % 256, (p.m - 1) / 256) + 1,
                   (p.m - 1) % 256 + 1, p.strideB, Or(p.strideB, (p.k - 1) / 256))
  {
    hide Packed, Decode, Or;
    PackedDecodes(p.strideA, (p.k - 1) % 256, (p.m - 1) % 256, p.aHome, OrderA(p).dst);
    PackedSpills(p.strideB, p.k - 1, p.m - 1, p.bHome, OrderB(p).dst);
  }

  /** Matrix A is asked for whole, and nothing more, exactly when its counts fit eight bits. */
  lemma FetchesAExactly(p: Setup)
    requires p.Valid()
    ensures ConfigOf(OrderA(p)).height == p.m && ConfigOf(OrderA(p)).width == p.k <==> p.m <= 0x100 && p.k <= 0x100
  {
    hide Packed, Decode, Or;
    PackedDecodes(p.strideA, (p.k - 1) % 0x100, (p.m - 1) % 0x100, p.aHome, OrderA(p).dst);
  }

  /** Matrix B, of K rows and `n` columns, is asked for with the counts of A: whole, and nothing more,
      exactly when its K rows are the low byte of M and the spill of M makes up its columns. */
  lemma FetchesBExactly(p: Setup, n: nat)
    requires p.Valid()
    ensures ConfigOf(OrderB(p)).height == p.k && ConfigOf(OrderB(p)).width == n <==>
            p.k - 1 == (p.m - 1) % 0x100 && n - 1 == Or(p.k - 1, (p.m - 1) / 0x100)
  {
    hide Packed, Decode, Or;
    PackedSpills(p.strideB, p.k - 1, p.m - 1, p.bHome, OrderB(p).dst);
  }

  /** While M fits eight bits, that is when A and B are square of one size. */
  lemma FetchesSquareB(p: Setup, n: nat)
    requires p.Valid() && p.m <= 0x100
    ensures ConfigOf(OrderB(p)).height == p.k && ConfigOf(OrderB(p)).width == n <==> p.m == p.k == n
  {
    hide Or, OrderB, ConfigOf;
    FetchesBExactly(p, n);
    OneByte(p.m - 1);
    OrZero(p.k - 1);
  }

  /** A thin A spoils more than the counts: with one row of 512 columns the engine is told 256 columns
      and one row, at a destination stride whose lowest bit is set. */
  lemma ThinMatrixSpills(p: Setup)
    requires p.m == 1 && p.k == 512 && p.strideA < 256 && p.strideB < 256 && p.strideB % 2 == 0
    ensures var c := ConfigOf(OrderB(p));
            c.height == 1 && c.width == 256 && c.srcStride == p.strideB && c.dstStride == p.strideB + 1
    ensures ConfigOf(OrderA(p)).width == 256
  {
    hide Packed, Decode, Or;
    PackedSpills(p.strideB, p.k - 1, p.m - 1, p.bHome, OrderB(p).dst);
    PackedDecodes(p.strideA, 255, 0, p.aHome, OrderA(p).dst);
    OrHalves(p.strideB / 2, 0, 0, 1);
    OrZero(p.strideB / 2);
    OrZero(255);
  }

  lemma Fields(a: nat, b: nat, c: nat, d: nat)
    requires a < 0x100 && b < 0x100 && c < 0x100 && d < 0x100
    ensures var w := ((a * 0x100 + b) * 0x100 + c) * 0x100 + d;
            w < WORDS && w % 0x100 == d && w / 0x100 % 0x100 == c && w / 0x1_0000 % 0x100 == b
              && w / 0x100_0000 % 0x100 == a
  {
    var w := ((a * 0x100 + b) * 0x100 + c) * 0x100 + d;
    assert w / 0x100 == (a * 0x100 + b) * 0x100 + c;
    assert w / 0x1_0000 == a * 0x100 + b;
  }
}
