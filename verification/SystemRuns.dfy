/** Runs of the whole system that come to the multiplication. */
module SystemRuns {
  import opened Words
  import opened DmaModel
  import opened DmaProof
  import opened DmaRuns
  import opened DmaDone
  import opened DmaCopy
  import opened Routing
  import opened Handshake
  import opened Accelerators
  import opened EndToEnd

  /** States and steps that follow each other, from any state. */
  predicate IsPath(mem: Bytes, p: Setup, ss: seq<System>, hs: seq<Happening>) {
    && p.Valid() && |ss| == |hs| + 1
    && forall i {:trigger Routed(mem, p, ss, hs, i)} :: 0 <= i < |hs| ==> Routed(mem, p, ss, hs, i)
  }

  lemma Joined(mem: Bytes, p: Setup, ss: seq<System>, hs: seq<Happening>, ts: seq<System>, gs: seq<Happening>)
    requires IsPath(mem, p, ss, hs) && IsPath(mem, p, ts, gs) && ss[|hs|] == ts[0]
    ensures IsPath(mem, p, ss + ts[1..], hs + gs)
    ensures (ss + ts[1..])[0] == ss[0] && (ss + ts[1..])[|hs + gs|] == ts[|gs|]
  {
    hide Answered, CanHappen, After;
    var vs, js := ss + ts[1..], hs + gs;
    forall i | 0 <= i < |js|
      ensures Routed(mem, p, vs, js, i)
    {
      if i < |hs| {
        assert Routed(mem, p, ss, hs, i);
      } else {
        assert Routed(mem, p, ts, gs, i - |hs|);
        assert vs[i] == ts[i - |hs|] && vs[i + 1] == ts[i - |hs| + 1];
      }
    }
  }

  lemma OneEvent(mem: Bytes, p: Setup, s: System, h: Happening)
    requires p.Valid() && CanHappen(s, h) && Answered(mem, s, h)
    ensures IsPath(mem, p, [s, After(s, p, h)], [h])
  {
    hide Answered, CanHappen, After;
  }

  // ---- The engine serves an order ----

  /** A run of the engine is a path of the system. */
  lemma EnginePath(mem: Bytes, p: Setup, s: System, ts: seq<Dma>, us: seq<Step>)
    requires p.Valid() && |ts| == |us| + 1 && s.dma == ts[0]
    requires forall i {:trigger DmaRuns.Linked(Reads(mem), ts, us, i)} :: 0 <= i < |us| ==>
               DmaRuns.Linked(Reads(mem), ts, us, i)
    ensures IsPath(mem, p, EngineStates(s, ts), EngineSteps(us))
    ensures EngineStates(s, ts)[0] == s && EngineStates(s, ts)[|us|] == s.(dma := ts[|us|])
  {
    hide Next, Possible, Faithful, Shape;
    var ss, hs := EngineStates(s, ts), EngineSteps(us);
    forall i | 0 <= i < |hs|
      ensures Routed(mem, p, ss, hs, i)
    {
      assert DmaRuns.Linked(Reads(mem), ts, us, i);
    }
  }

  function WithEngine(s: System, d: Dma): System { s.(dma := d) }

  function EngineStates(s: System, ts: seq<Dma>): seq<System> {
    seq(|ts|, i requires 0 <= i < |ts| => WithEngine(s, ts[i]))
  }

  function EngineSteps(us: seq<Step>): seq<Happening> {
    seq(|us|, i requires 0 <= i < |us| => Happening.Engine(us[i]))
  }

  /** The bus takes no write packet at once. */
  function Reluctant(): Policy { (w: nat) => ((k: nat) => false) }

  lemma ReluctantRefuses(cfg: Config)
    ensures forall w :: PhaseStart(cfg, w) ==> RefusesSome(cfg, Reluctant(), w)
  {
    hide PhasePackets;
    forall w | PhaseStart(cfg, w)
      ensures RefusesSome(cfg, Reluctant(), w)
    {
      TakenExtremes(cfg, Reluctant(), w);
      SomePackets(cfg, w);
    }
  }

  lemma SomePackets(cfg: Config, w: nat)
    requires PhaseStart(cfg, w)
    ensures PhasePackets(cfg, w) > 0
  {
    hide Config.TotalWords;
  }

  /** A resting engine, enabled, can finish. */
  lemma CanFinish(m: Source, o: Order, all: multiset<WriteReq>, d: Dma) returns (ts: seq<Dma>, us: seq<Step>)
    requires Resting(all, d)
    ensures |ts| == |us| + 1 && ts[0] == Enable(d, ConfigOf(o), true) && ts[|us|].done
    ensures forall i {:trigger DmaRuns.Linked(m, ts, us, i)} :: 0 <= i < |us| ==> DmaRuns.Linked(m, ts, us, i)
    ensures Resting(all + Issued(m, o), ts[|us|])
  {
    hide WritesOf, Enable, Conserved, OnCourse, Fair, DmaRuns.Linked, ConfigOf, Issued, Invariant;
    var cfg, q := ConfigOf(o), 0;
    ReluctantRefuses(cfg);
    Starts(m, d, cfg, Reluctant());
    ts, us, q := Completes(m, d, cfg, true, Reluctant(), [Enable(d, cfg, true)], [], 0);
    RunKeeps(m, d, cfg, true, ts, us, |us|);
    FinishedRests(m, o, all, ts[|us|]);
  }

  // ---- Commands and polls ----

  /** The four commands of an order arrive. */
  lemma CommandsArrive(mem: Bytes, p: Setup, s: System, o: Order) returns (ss: seq<System>, hs: seq<Happening>)
    requires p.Valid() && Shape(s.dma) && s.link.channel == Commands(o)
    ensures IsPath(mem, p, ss, hs) && ss[0] == s
    ensures ss[|hs|] == s.(link := s.link.(channel := [], src := o.src, dst := o.dst, size := o.size),
                           dma := Enable(s.dma, ConfigOf(o), true))
  {
    hide Enable;
    var h := Deliver(true);
    var s1 := After(s, p, h);
    assert s1 == s.(link := s.link.(channel := Commands(o)[1..], src := o.src));
    var s2 := After(s1, p, h);
    assert s2 == s1.(link := s1.link.(channel := Commands(o)[2..], dst := o.dst));
    var s3 := After(s2, p, h);
    assert s3 == s2.(link := s2.link.(channel := [SetEnable], size := o.size));
    var s4 := After(s3, p, h);
    ss, hs := [s, s1, s2, s3, s4], [h, h, h, h];
    forall i | 0 <= i < 4
      ensures Routed(mem, p, ss, hs, i)
    {
      if i == 0 { assert ss[1] == s1; }
    }
  }

  /** A poll of an engine that is done tells the accelerator so. */
  lemma PollAnswers(mem: Bytes, p: Setup, s: System) returns (ss: seq<System>, hs: seq<Happening>)
    requires p.Valid() && Shape(s.dma) && s.dma.done && s.link.timer && Quiet(s.link.(timer := false))
    ensures IsPath(mem, p, ss, hs) && ss[0] == s
    ensures ss[|hs|] == Received(s.(link := s.link.(timer := false, answer := Some(true))), p)
  {
    hide Shape, Received;
    var s1 := s.(link := s.link.(timer := false, channel := [Poll]));
    var s2 := s.(link := s.link.(timer := false, reading := true));
    var s3 := s.(link := s.link.(timer := false, answer := Some(true)));
    assert [] + [Poll] == [Poll] && [Poll][1..] == [];
    assert s1 == After(s, p, TimerFires) && s2 == After(s1, p, Deliver(true)) && s3 == After(s2, p, ReadDone);
    ss, hs := [s, s1, s2, s3, Received(s3, p)], [TimerFires, Deliver(true), ReadDone, Receive];
    forall i | 0 <= i < 4
      ensures Routed(mem, p, ss, hs, i)
    {}
  }

  /** From the programming of an order to the answer that it is done. */
  lemma OrderServed(mem: Bytes, p: Setup, all: multiset<WriteReq>, s: System, o: Order, l: Link)
    returns (ss: seq<System>, hs: seq<Happening>, d: Dma)
    requires p.Valid() && Resting(all, s.dma) && Quiet(l) && s.link == Ask(l, o)
    ensures IsPath(mem, p, ss, hs) && ss[0] == s && Resting(all + Issued(Reads(mem), o), d)
    ensures ss[|hs|] == Received(System(s.accel, s.starts, Told(l, o).(answer := Some(true)), d), p)
  {
    hide Issued, ConfigOf, Enable, IsPath, Received, WritesOf, AllLegal;
    assert [] + Commands(o) == Commands(o);
    var ss1, hs1 := CommandsArrive(mem, p, s, o);
    var ts, us := CanFinish(Reads(mem), o, all, s.dma);
    d := ts[|us|];
    PathShape(mem, p, ss1, hs1);
    var at := ss1[|hs1|];
    EnginePath(mem, p, at, ts, us);
    Joined(mem, p, ss1, hs1, EngineStates(at, ts), EngineSteps(us));
    var ss2, hs2 := ss1 + EngineStates(at, ts)[1..], hs1 + EngineSteps(us);
    var done := at.(dma := d);
    var ss3, hs3 := PollAnswers(mem, p, done);
    PathShape(mem, p, ss2, hs2);
    PathShape(mem, p, ss3, hs3);
    Joined(mem, p, ss2, hs2, ss3, hs3);
    ss, hs := ss2 + ss3[1..], hs2 + hs3;
  }

  function Told(l: Link, o: Order): Link { l.(src := o.src, dst := o.dst, size := o.size) }

  lemma PathShape(mem: Bytes, p: Setup, ss: seq<System>, hs: seq<Happening>)
    requires IsPath(mem, p, ss, hs)
    ensures |ss| == |hs| + 1
  {}

  /** From every resting system some run comes to the multiplication. */
  lemma SomeRunComputes(mem: Bytes, p: Setup, before: multiset<WriteReq>, s: System)
    returns (ss: seq<System>, hs: seq<Happening>)
    requires p.Valid() && Resting(before, s.dma) && Quiet(s.link) && s.starts == 0
    ensures IsRoutedRun(mem, p, before, s, ss, hs) && ss[|hs|].accel == Compute
  {
    hide Issued, OrderA, OrderB, IsPath, Resting, Quiet, Ask, Routed;
    QuietIsQuiet(s.link, OrderA(p));
    var ss1, hs1, d := OrderServed(mem, p, before, Start(s, p), OrderA(p), s.link);
    var l := Told(s.link, OrderA(p));
    PathShape(mem, p, ss1, hs1);
    assert ss1[|hs1|] == System(ReadMatB, 0, Ask(l, OrderB(p)), d) by { AnsweredLink(l); }
    var ss2, hs2, e := OrderServed(mem, p, before + Issued(Reads(mem), OrderA(p)), ss1[|hs1|], OrderB(p), l);
    PathShape(mem, p, ss2, hs2);
    Joined(mem, p, ss1, hs1, ss2, hs2);
    ss, hs := ss1 + ss2[1..], hs1 + hs2;
    PathIsRun(mem, p, before, s, ss, hs);
  }

  lemma QuietIsQuiet(l: Link, o: Order)
    requires Quiet(l)
    ensures Quiet(Told(l, o))
  {}

  lemma AnsweredLink(l: Link)
    ensures l.(answer := Some(true)).(answer := None) == l.(answer := None)
  {}

  lemma PathIsRun(mem: Bytes, p: Setup, before: multiset<WriteReq>, s: System, ss: seq<System>, hs: seq<Happening>)
    requires IsPath(mem, p, ss, hs) && Resting(before, s.dma) && Quiet(s.link) && s.starts == 0 && ss[0] == Start(s, p)
    ensures IsRoutedRun(mem, p, before, s, ss, hs)
  {
    hide Routed;
  }

  // ---- What such a run delivers ----

  function OnlyWrites(ps: seq<Packet>): seq<Packet> {
    if ps == [] then [] else (if ps[0].WriteBurst? then [ps[0]] else []) + OnlyWrites(ps[1..])
  }

  lemma {:induction false} SameWrites(ps: seq<Packet>)
    requires AllLegal(ps)
    ensures WritesOf(OnlyWrites(ps)) == WritesOf(ps)
    ensures forall i :: 0 <= i < |OnlyWrites(ps)| ==> OnlyWrites(ps)[i].WriteBurst? && OnlyWrites(ps)[i].stores != []
  {
    if ps != [] {
      assert Legal(ps[0]);
      SameWrites(ps[1..]);
      var rest := OnlyWrites(ps[1..]);
      WritesOfHead(ps[0], rest);
      WritesOfHead(ps[0], ps[1..]);
      assert [ps[0]] + ps[1..] == ps && OnlyWrites(ps) == if ps[0].WriteBurst? then [ps[0]] + rest else rest;
    }
  }

  /** With operands that the accelerator supports, in the range taken for its SRAM, some run from a fresh
      engine comes to the multiplication with bursts that all reach the SRAM: the end-to-end result is
      about something. */
  lemma SomeRunDelivers(mem: Bytes, p: Setup, s: System)
    returns (ss: seq<System>, hs: seq<Happening>, packets: seq<Packet>)
    requires Square(p) && p.aAddr + p.m * p.m <= SRAM_WORDS && p.bAddr + p.m * p.m <= SRAM_WORDS
    requires Resting(multiset{}, s.dma) && Quiet(s.link) && s.starts == 0
    ensures IsRoutedRun(mem, p, multiset{}, s, ss, hs) && ss[|hs|].accel == Compute
    ensures multiset{} + multiset(WritesOf(packets)) ==
            multiset(WritesOf(ss[|hs|].dma.sent)) + multiset(WritesOf(ss[|hs|].dma.queue))
    ensures forall q :: q in packets ==> StartsInSram(q)
  {
    hide Square, WritesOf, StartsInSram, IsRoutedRun, Resting;
    SquareIsValid(p);
    ss, hs := SomeRunComputes(mem, p, multiset{}, s);
    RunIsPath(mem, p, multiset{}, s, ss, hs);
    var d := ss[|hs|].dma;
    RunEnds(mem, p, multiset{}, s, ss, hs);
    SameWrites(d.sent + d.queue);
    WritesOfSplits(d.sent, d.queue);
    packets := OnlyWrites(d.sent + d.queue);
    assert multiset(WritesOf(d.sent) + WritesOf(d.queue)) == multiset(WritesOf(d.sent)) + multiset(WritesOf(d.queue));
    BothIssued(mem, p, multiset{}, s, ss, hs, WritesOf(packets));
    forall q | q in packets
      ensures StartsInSram(q)
    {
      var i :| 0 <= i < |packets| && packets[i] == q;
      LowOperandsReach(mem, p, packets, i);
    }
  }

  lemma RunIsPath(mem: Bytes, p: Setup, before: multiset<WriteReq>, s: System, ss: seq<System>, hs: seq<Happening>)
    requires IsRoutedRun(mem, p, before, s, ss, hs)
    ensures |ss| == |hs| + 1
  {}

  lemma RunEnds(mem: Bytes, p: Setup, before: multiset<WriteReq>, s: System, ss: seq<System>, hs: seq<Happening>)
    requires Square(p) && IsRoutedRun(mem, p, before, s, ss, hs) && |ss| == |hs| + 1 && ss[|hs|].accel == Compute
    ensures AllLegal(ss[|hs|].dma.sent + ss[|hs|].dma.queue)
  {
    hide Square, WritesOf, Issued, OrderA, OrderB, Legal, Serving;
    SquareIsValid(p);
    RoutedIsRun(mem, p, before, s, ss, hs, |hs|);
    assert ss[..|hs| + 1] == ss && hs[..|hs|] == hs;
    hide IsRoutedRun, Handshake.IsRun;
    RunGood(Reads(mem), p, before, s, ss, hs, |hs|);
  }
}
