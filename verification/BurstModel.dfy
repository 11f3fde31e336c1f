/** The bursting data memory: beats of many requests interleave, and each request is answered once,
    when its last beat is done. */
module BurstModel {
  import opened Words
  import opened DmaModel
  import opened DmaCopy

  datatype Op = Lb | Lbu | Lh | Lhu | Lw | Sb | Sh | Sw

  /** One beat of a request; `tag` is the operand that a read hands back unchanged. */
  datatype Beat = Beat(op: Op, addr: Word, data: Word, tag: int)

  datatype Request = Request(tid: int, read: bool, beats: seq<Beat>)

  datatype Reply = ReadReply(tag: int, data: Word) | WriteReply

  datatype Response = Response(tid: int, replies: seq<Reply>)

  datatype Tracker = Tracker(expected: int, read: seq<Reply>, written: seq<Reply>)

  /** `sent` are the responses the bus has taken, `respQ` those still queued. */
  datatype Memory = Memory(bytes: seq<Byte>, pending: map<int, Tracker>, respQ: seq<Response>, sent: seq<Response>)

  function Size(op: Op): nat {
    match op
    case Lb => 1 case Lbu => 1 case Sb => 1
    case Lh => 2 case Lhu => 2 case Sh => 2
    case Lw => 4 case Sw => 4
  }

  predicate Loads(op: Op) { op.Lb? || op.Lbu? || op.Lh? || op.Lhu? || op.Lw? }

  /** What the memory asserts of every access. */
  predicate InRange(m: Memory, b: Beat) { b.addr + Size(b.op) <= |m.bytes| }

  function Load(bytes: seq<Byte>, op: Op, addr: Word): Word
    requires Loads(op) && addr + Size(op) <= |bytes|
  {
    match op
    case Lb => if bytes[addr] < 0x80 then bytes[addr] else FourBytes(bytes[addr], 0xFF, 0xFF, 0xFF)
    case Lbu => bytes[addr]
    case Lh => var top := if bytes[addr + 1] < 0x80 then 0 else 0xFF; FourBytes(bytes[addr], bytes[addr + 1], top, top)
    case Lhu => FourBytes(bytes[addr], bytes[addr + 1], 0, 0)
    case Lw => FourBytes(bytes[addr], bytes[addr + 1], bytes[addr + 2], bytes[addr + 3])
  }

  function Stored(bytes: seq<Byte>, op: Op, addr: Word, data: Word): seq<Byte>
    requires !Loads(op) && addr + Size(op) <= |bytes|
  {
    seq(|bytes|, x requires 0 <= x < |bytes| => StoredByte(bytes[x], x, op, addr, data))
  }

  function StoredByte(was: Byte, x: int, op: Op, addr: Word, data: Word): Byte {
    if addr <= x < addr + Size(op) then ByteOf(data, x - addr) else was
  }

  /** What each load answers: the bytes little end first, read as an unsigned or as a two's complement
      number of that width. */
  lemma LoadMeans(bytes: seq<Byte>, addr: Word)
    ensures addr + 1 <= |bytes| ==>
              var v: int := bytes[addr];
              Load(bytes, Lbu, addr) == v && Signed(Load(bytes, Lb, addr)) == if v < 128 then v else v - 256
    ensures addr + 2 <= |bytes| ==>
              var v0: int, v1: int := bytes[addr], bytes[addr + 1];
              var v := v0 + 256 * v1;
              Load(bytes, Lhu, addr) == v && Signed(Load(bytes, Lh, addr)) == if v < 32768 then v else v - 65536
    ensures addr + 4 <= |bytes| ==>
              var v0: int, v1: int, v2: int, v3: int := bytes[addr], bytes[addr + 1], bytes[addr + 2], bytes[addr + 3];
              Load(bytes, Lw, addr) == v0 + 256 * (v1 + 256 * (v2 + 256 * v3))
  {}

  /** What each store leaves at byte `x`: the low one, two or four bytes of the data little end first,
      and everything else as it was. */
  lemma StoreMeans(bytes: seq<Byte>, addr: Word, data: Word, x: nat)
    requires x < |bytes|
    ensures addr + 1 <= |bytes| ==> Stored(bytes, Sb, addr, data)[x] == if x == addr then data % 256 else bytes[x]
    ensures addr + 2 <= |bytes| ==>
              Stored(bytes, Sh, addr, data)[x] ==
              if x == addr then data % 256 else if x == addr + 1 then data / 256 % 256 else bytes[x]
    ensures addr + 4 <= |bytes| ==>
              Stored(bytes, Sw, addr, data)[x] ==
              if x == addr then data % 256
              else if x == addr + 1 then data / 256 % 256
              else if x == addr + 2 then data / 65536 % 256
              else if x == addr + 3 then data / 16777216
              else bytes[x]
  {}

  // ---- Collecting the beats ----

  /** A request is popped: its tracker expects all beats. */
  function Accept(m: Memory, r: Request): Memory {
    var tk := if r.tid in m.pending then m.pending[r.tid] else Tracker(0, [], []);
    m.(pending := m.pending[r.tid := tk.(expected := |r.beats|)])
  }

  function TrackerOf(m: Memory, tid: int): Tracker {
    var tk := if tid in m.pending then m.pending[tid] else Tracker(0, [], []);
    tk.(expected := if tk.expected < 1 then 1 else tk.expected)
  }

  /** Adds a reply to the tracker of `tid`; a full tracker becomes a response. */
  function Collect(m: Memory, tid: int, read: bool, reply: Reply): Memory {
    var tk := TrackerOf(m, tid);
    var replies := (if read then tk.read else tk.written) + [reply];
    if |replies| == tk.expected then
      m.(pending := m.pending - {tid}, respQ := m.respQ + [Response(tid, replies)])
    else
      m.(pending := m.pending[tid := if read then tk.(read := replies) else tk.(written := replies)])
  }

  function ReplyTo(m: Memory, b: Beat): Reply
    requires InRange(m, b)
  {
    if Loads(b.op) then ReadReply(b.tag, Load(m.bytes, b.op, b.addr)) else WriteReply
  }

  function HandleBeat(m: Memory, tid: int, b: Beat): Memory
    requires InRange(m, b)
  {
    if Loads(b.op) then Collect(m, tid, true, ReplyTo(m, b))
    else Collect(m.(bytes := Stored(m.bytes, b.op, b.addr, b.data)), tid, false, WriteReply)
  }

  function Send(m: Memory, taken: bool): Memory {
    if m.respQ != [] && taken then m.(respQ := m.respQ[1..], sent := m.sent + [m.respQ[0]]) else m
  }

  // ---- The memory among its requests ----

  /** A request the memory has popped, with the replies to its beats so far. */
  datatype Job = Job(request: Request, got: seq<Reply>)

  /** `jobs` remembers every request, by its transaction number. */
  datatype World = World(memory: Memory, jobs: map<int, Job>)

  datatype Happening = Arrive(request: Request) | NextBeat(tid: int) | SendNext(taken: bool)

  predicate WellFormed(r: Request) {
    r.beats != [] && forall i :: 0 <= i < |r.beats| ==> Loads(r.beats[i].op) == r.read
  }

  predicate CanHappen(w: World, h: Happening) {
    match h
    case Arrive(r) => r.tid !in w.jobs && WellFormed(r)
    case NextBeat(tid) =>
      && tid in w.jobs && |w.jobs[tid].got| < |w.jobs[tid].request.beats|
      && InRange(w.memory, w.jobs[tid].request.beats[|w.jobs[tid].got|])
    case SendNext(_) => true
  }

  /** Beats of one request run in their order; beats of different requests in any order. */
  function After(w: World, h: Happening): World
    requires CanHappen(w, h)
  {
    match h
    case Arrive(r) => World(Accept(w.memory, r), w.jobs[r.tid := Job(r, [])])
    case NextBeat(tid) =>
      var job := w.jobs[tid];
      var b := job.request.beats[|job.got|];
      World(HandleBeat(w.memory, tid, b), w.jobs[tid := job.(got := job.got + [ReplyTo(w.memory, b)])])
    case SendNext(taken) => w.(memory := Send(w.memory, taken))
  }

  // ---- Responses by transaction ----

  function Of(rs: seq<Response>, tid: int): seq<Response> {
    if rs == [] then [] else (if rs[0].tid == tid then [rs[0]] else []) + Of(rs[1..], tid)
  }

  lemma {:induction false} OfSplits(a: seq<Response>, b: seq<Response>, tid: int)
    ensures Of(a + b, tid) == Of(a, tid) + Of(b, tid)
  {
    hide Of;
    if a == [] {
      NoneOf(tid);
      assert a + b == b && [] + Of(b, tid) == Of(b, tid);
    } else {
      var rest, first := a[1..], if a[0].tid == tid then [a[0]] else [];
      OfSplits(rest, b, tid);
      OfHead(a[0], rest + b, tid);
      OfHead(a[0], rest, tid);
      assert [a[0]] + rest == a && [a[0]] + (rest + b) == a + b;
      assert first + (Of(rest, tid) + Of(b, tid)) == (first + Of(rest, tid)) + Of(b, tid);
    }
  }

  lemma NoneOf(tid: int)
    ensures Of([], tid) == []
  {}

  lemma OfHead(r: Response, rest: seq<Response>, tid: int)
    ensures Of([r] + rest, tid) == (if r.tid == tid then [r] else []) + Of(rest, tid)
  {
    assert ([r] + rest)[1..] == rest;
  }

  function Made(m: Memory): seq<Response> { m.sent + m.respQ }

  /** How far request `tid` is. */
  predicate Tracked(w: World, tid: int)
    requires tid in w.jobs
  {
    var job := w.jobs[tid];
    var all, n := |job.request.beats|, |job.got|;
    && job.request.tid == tid && WellFormed(job.request) && n <= all
    && (forall i :: 0 <= i < n ==> Echoes(job.request.beats[i], job.got[i]))
    && if n < all then
         && tid in w.memory.pending && Of(Made(w.memory), tid) == []
         && w.memory.pending[tid] == TrackerFor(all, job.request.read, job.got)
       else tid !in w.memory.pending && Of(Made(w.memory), tid) == [Response(tid, job.got)]
  }

  /** A reply is of the kind of its beat and hands back its tag. */
  predicate Echoes(b: Beat, r: Reply) { if Loads(b.op) then r.ReadReply? && r.tag == b.tag else r.WriteReply? }

  ghost predicate Invariant(w: World) {
    && (forall tid :: tid in w.jobs ==> Tracked(w, tid))
    && (forall tid :: tid in w.memory.pending ==> tid in w.jobs)
    && (forall tid :: tid !in w.jobs ==> Of(Made(w.memory), tid) == [])
  }

  /** Nothing that concerns other transactions changes. */
  lemma OthersKeep(w: World, n: World, tid: int, other: int)
    requires other in w.jobs && Tracked(w, other) && other != tid && other in n.jobs && n.jobs[other] == w.jobs[other]
    requires other in w.memory.pending <==> other in n.memory.pending
    requires other in w.memory.pending ==> n.memory.pending[other] == w.memory.pending[other]
    requires Of(Made(n.memory), other) == Of(Made(w.memory), other)
    ensures Tracked(n, other)
  {
    hide Of, WellFormed, Echoes;
  }

  lemma CollectMakes(m: Memory, tid: int, read: bool, reply: Reply, other: int)
    ensures var n := Collect(m, tid, read, reply);
            && n.sent == m.sent && n.bytes == m.bytes
            && (other != tid ==> Of(Made(n), other) == Of(Made(m), other))
            && (other != tid ==> (other in n.pending <==>
              other in m.pending) && (other in m.pending ==> n.pending[other] == m.pending[other]))
  {
    var tk := TrackerOf(m, tid);
    var r := Response(tid, (if read then tk.read else tk.written) + [reply]);
    assert m.sent + (m.respQ + [r]) == Made(m) + [r];
    OfSplits(Made(m), [r], other);
  }

  function TrackerFor(all: int, read: bool, got: seq<Reply>): Tracker {
    Tracker(all, if read then got else [], if read then [] else got)
  }

  lemma CollectTracks(m: Memory, tid: int, read: bool, all: int, got: seq<Reply>, reply: Reply)
    requires tid in m.pending && m.pending[tid] == TrackerFor(all, read, got) && |got| < all && Of(Made(m), tid) == []
    ensures var n := Collect(m, tid, read, reply);
            if |got| + 1 < all then
              tid in n.pending && n.pending[tid] == TrackerFor(all, read, got + [reply]) && Of(Made(n), tid) == []
            else
              tid !in n.pending && Of(Made(n), tid) == [Response(tid, got + [reply])]
  {
    var r := Response(tid, got + [reply]);
    assert m.sent + (m.respQ + [r]) == Made(m) + [r];
    OfSplits(Made(m), [r], tid);
    OnlyOne(r);
    hide Of;
  }

  lemma OnlyOne(r: Response)
    ensures Of([r], r.tid) == [r]
  {}

  lemma BeatTracks(w: World, tid: int)
    requires tid in w.jobs && Tracked(w, tid) && CanHappen(w, NextBeat(tid))
    ensures Tracked(After(w, NextBeat(tid)), tid)
  {
    hide Load, Stored, Of, Collect;
    var job := w.jobs[tid];
    var b := job.request.beats[|job.got|];
    var m := if Loads(b.op) then w.memory else w.memory.(bytes := Stored(w.memory.bytes, b.op, b.addr, b.data));
    assert Made(m) == Made(w.memory);
    CollectTracks(m, tid, job.request.read, |job.request.beats|, job.got, ReplyTo(w.memory, b));
  }

  lemma BeatKeepsOthers(w: World, tid: int, other: int)
    requires other in w.jobs && Tracked(w, other) && CanHappen(w, NextBeat(tid)) && other != tid
    ensures Tracked(After(w, NextBeat(tid)), other)
  {
    BeatElsewhere(w, tid, other);
    hide Of, Tracked, HandleBeat, ReplyTo;
    OthersKeep(w, After(w, NextBeat(tid)), tid, other);
  }

  lemma BeatElsewhere(w: World, tid: int, other: int)
    requires CanHappen(w, NextBeat(tid)) && other != tid
    ensures var n := After(w, NextBeat(tid)).memory;
            && Of(Made(n), other) == Of(Made(w.memory), other)
            && (other in n.pending <==> other in w.memory.pending)
            && (other in w.memory.pending ==> n.pending[other] == w.memory.pending[other])
  {
    hide Of, Load, Stored, Collect;
    var b := w.jobs[tid].request.beats[|w.jobs[tid].got|];
    var m := if Loads(b.op) then w.memory else w.memory.(bytes := Stored(w.memory.bytes, b.op, b.addr, b.data));
    CollectMakes(m, tid, Loads(b.op), ReplyTo(w.memory, b), other);
  }

  lemma StepKeeps(w: World, h: Happening)
    requires Invariant(w) && CanHappen(w, h)
    ensures Invariant(After(w, h))
  {
    match h {
      case Arrive(r) => ArriveKeeps(w, r);
      case NextBeat(tid) => NextBeatKeeps(w, tid);
      case SendNext(taken) => RetryKeeps(w, taken);
    }
  }

  lemma ArriveKeeps(w: World, r: Request)
    requires Invariant(w) && CanHappen(w, Arrive(r))
    ensures Invariant(After(w, Arrive(r)))
  {
    hide Of, WellFormed, Tracked;
    var n := After(w, Arrive(r));
    forall tid | tid in n.jobs
      ensures Tracked(n, tid)
    {
      if tid != r.tid { OthersKeep(w, n, r.tid, tid); } else { ArriveTracks(w, r); }
    }
  }

  lemma ArriveTracks(w: World, r: Request)
    requires CanHappen(w, Arrive(r)) && r.tid !in w.memory.pending && Of(Made(w.memory), r.tid) == []
    ensures Tracked(After(w, Arrive(r)), r.tid)
  {
    hide Of;
  }

  lemma NextBeatKeeps(w: World, tid: int)
    requires Invariant(w) && CanHappen(w, NextBeat(tid))
    ensures Invariant(After(w, NextBeat(tid)))
  {
    hide Of, HandleBeat, ReplyTo, Tracked;
    var n := After(w, NextBeat(tid));
    BeatTracks(w, tid);
    forall other
      ensures other in n.jobs ==> Tracked(n, other)
      ensures other in n.memory.pending ==> other in n.jobs
      ensures other !in n.jobs ==> Of(Made(n.memory), other) == []
    {
      if other != tid {
        BeatElsewhere(w, tid, other);
        if other in w.jobs { BeatKeepsOthers(w, tid, other); }
      }
    }
  }

  lemma RetryKeeps(w: World, taken: bool)
    requires Invariant(w)
    ensures Invariant(After(w, SendNext(taken)))
  {
    var m, n := w.memory, Send(w.memory, taken);
    assert Made(m) == Made(n) by {
      if m.respQ != [] && taken { assert m.respQ == [m.respQ[0]] + m.respQ[1..]; }
    }
    forall tid | tid in w.jobs
      ensures Tracked(w.(memory := n), tid)
    {
      assert Tracked(w, tid);
    }
  }

  // ---- Runs ----

  predicate Linked(ws: seq<World>, hs: seq<Happening>, i: nat)
    requires i < |hs| && |ws| == |hs| + 1
  {
    CanHappen(ws[i], hs[i]) && ws[i + 1] == After(ws[i], hs[i])
  }

  /** A run of a memory that starts with nothing pending. */
  predicate IsRun(ws: seq<World>, hs: seq<Happening>) {
    && |ws| == |hs| + 1 && ws[0].jobs == map[] && ws[0].memory.pending == map[] && ws[0].memory.respQ == []
    && ws[0].memory.sent == []
    && forall i {:trigger Linked(ws, hs, i)} :: 0 <= i < |hs| ==> Linked(ws, hs, i)
  }

  lemma {:induction false} RunKeeps(ws: seq<World>, hs: seq<Happening>, i: nat)
    requires IsRun(ws, hs) && i < |ws|
    ensures Invariant(ws[i])
  {
    if i > 0 {
      hide Invariant, After, CanHappen;
      RunKeeps(ws, hs, i - 1);
      assert Linked(ws, hs, i - 1);
      StepKeeps(ws[i - 1], hs[i - 1]);
    } else {
      NothingYet(ws[0]);
    }
  }

  lemma NothingYet(w: World)
    requires w.jobs == map[] && w.memory.pending == map[] && Made(w.memory) == []
    ensures Invariant(w)
  {}

  /** Step `t` ran beat `k` of request `tid`, and `reply` is what the memory then gave. */
  predicate RanAt(ws: seq<World>, hs: seq<Happening>, t: nat, tid: int, k: nat, reply: Reply) {
    && t < |hs| && |ws| == |hs| + 1 && hs[t] == NextBeat(tid) && CanHappen(ws[t], hs[t])
    && |ws[t].jobs[tid].got| == k
    && reply == ReplyTo(ws[t].memory, ws[t].jobs[tid].request.beats[k])
  }

  predicate RanBefore(ws: seq<World>, hs: seq<Happening>, i: nat, tid: int, k: nat, reply: Reply) {
    exists t :: 0 <= t < i && RanAt(ws, hs, t, tid, k, reply)
  }

  /** Every reply is the memory's answer at the step that ran its beat. */
  lemma {:induction false} BeatRan(ws: seq<World>, hs: seq<Happening>, i: nat, tid: int, k: nat) returns (t: nat)
    requires IsRun(ws, hs) && i < |ws| && tid in ws[i].jobs && k < |ws[i].jobs[tid].got|
    ensures t < i && RanAt(ws, hs, t, tid, k, ws[i].jobs[tid].got[k])
    ensures tid in ws[t].jobs && ws[t].jobs[tid].request == ws[i].jobs[tid].request
  {
    hide HandleBeat, Accept, Send, ReplyTo, InRange, WellFormed;
    assert Linked(ws, hs, i - 1);
    var w := ws[i - 1];
    if hs[i - 1] == NextBeat(tid) && |w.jobs[tid].got| == k {
      t := i - 1;
    } else {
      t := BeatRan(ws, hs, i - 1, tid, k);
    }
  }

  /** Burst collection: at every moment of every run, whatever the interleaving, a request whose last
      beat is done has exactly one response, with one reply for every beat in the order of the beats;
      one whose last beat is not done has none; and the trackers are exactly those of the requests that
      are not done. Each reply hands back its beat's tag with the data the memory held when that beat
      ran. */
  lemma AnsweredOnce(ws: seq<World>, hs: seq<Happening>, i: nat, tid: int)
    requires IsRun(ws, hs) && i < |ws|
    ensures tid in ws[i].memory.pending <==>
            tid in ws[i].jobs && |ws[i].jobs[tid].got| < |ws[i].jobs[tid].request.beats|
    ensures tid in ws[i].jobs ==>
              var job := ws[i].jobs[tid];
              && |job.got| <= |job.request.beats|
              && (forall k :: 0 <= k < |job.got| ==> Echoes(job.request.beats[k], job.got[k]))
              && (forall k :: 0 <= k < |job.got| ==> RanBefore(ws, hs, i, tid, k, job.got[k]))
              && Of(Made(ws[i].memory), tid) == if |job.got| == |job.request.beats| then [Response(tid, job.got)]
                else []
    ensures tid !in ws[i].jobs ==> Of(Made(ws[i].memory), tid) == []
  {
    hide Of, IsRun, Echoes, WellFormed, RanAt;
    RunKeeps(ws, hs, i);
    if tid in ws[i].jobs {
      assert Tracked(ws[i], tid);
      forall k | 0 <= k < |ws[i].jobs[tid].got|
        ensures RanBefore(ws, hs, i, tid, k, ws[i].jobs[tid].got[k])
      {
        var t := BeatRan(ws, hs, i, tid, k);
      }
    }
  }

  // ---- Every request can be answered ----

  lemma Extend(ws: seq<World>, hs: seq<Happening>, h: Happening) returns (xs: seq<World>, ys: seq<Happening>)
    requires IsRun(ws, hs) && |ws| == |hs| + 1 && CanHappen(ws[|hs|], h)
    ensures IsRun(xs, ys) && xs == ws + [After(ws[|hs|], h)] && ys == hs + [h] && ws <= xs && hs <= ys
  {
    hide CanHappen, After;
    xs, ys := ws + [After(ws[|hs|], h)], hs + [h];
    forall i | 0 <= i < |ys|
      ensures Linked(xs, ys, i)
    {
      if i < |hs| { assert Linked(ws, hs, i); }
    }
  }

  lemma BeatMoves(w: World, tid: int)
    requires CanHappen(w, NextBeat(tid))
    ensures var n := After(w, NextBeat(tid));
            && tid in n.jobs && n.jobs[tid].request == w.jobs[tid].request
            && |n.jobs[tid].got| == |w.jobs[tid].got| + 1 && |n.memory.bytes| == |w.memory.bytes|
  {
    hide Load;
  }

  /** The remaining beats of a request, one after the other. */
  lemma {:induction false} Serve(ws: seq<World>, hs: seq<Happening>, tid: int)
    returns (xs: seq<World>, ys: seq<Happening>)
    requires IsRun(ws, hs) && |ws| == |hs| + 1 && tid in ws[|hs|].jobs
    requires var job := ws[|hs|].jobs[tid];
             && |job.got| <= |job.request.beats|
             && forall i :: 0 <= i < |job.request.beats| ==> InRange(ws[|hs|].memory, job.request.beats[i])
    ensures IsRun(xs, ys) && ws <= xs && hs <= ys && |xs| == |ys| + 1 && tid in xs[|ys|].jobs
    ensures var job := xs[|ys|].jobs[tid];
            job.request == ws[|hs|].jobs[tid].request && |job.got| == |job.request.beats|
    decreases |ws[|hs|].jobs[tid].request.beats| - |ws[|hs|].jobs[tid].got|
  {
    hide IsRun, After;
    if |ws[|hs|].jobs[tid].got| == |ws[|hs|].jobs[tid].request.beats| {
      xs, ys := ws, hs;
    } else {
      BeatMoves(ws[|hs|], tid);
      xs, ys := Extend(ws, hs, NextBeat(tid));
      xs, ys := Serve(xs, ys, tid);
    }
  }

  /** The bus takes everything that is queued. */
  lemma {:induction false} SendAll(ws: seq<World>, hs: seq<Happening>) returns (xs: seq<World>, ys: seq<Happening>)
    requires IsRun(ws, hs) && |ws| == |hs| + 1
    ensures IsRun(xs, ys) && ws <= xs && hs <= ys && |xs| == |ys| + 1
    ensures xs[|ys|].memory.respQ == [] && xs[|ys|].jobs == ws[|hs|].jobs
    decreases |ws[|hs|].memory.respQ|
  {
    hide IsRun;
    if ws[|hs|].memory.respQ == [] {
      xs, ys := ws, hs;
    } else {
      xs, ys := Extend(ws, hs, SendNext(true));
      xs, ys := SendAll(xs, ys);
    }
  }

  /** No request is left behind: whatever has happened so far, a new request of any kind and length whose
      beats lie in the memory can be taken, served and answered to its last beat. */
  lemma AnswerComes(ws: seq<World>, hs: seq<Happening>, r: Request) returns (xs: seq<World>, ys: seq<Happening>)
    requires IsRun(ws, hs) && |ws| == |hs| + 1 && r.tid !in ws[|hs|].jobs && r.beats != []
    requires forall i :: 0 <= i < |r.beats| ==> Loads(r.beats[i].op) == r.read
    requires forall i :: 0 <= i < |r.beats| ==> r.beats[i].addr + Size(r.beats[i].op) <= |ws[|hs|].memory.bytes|
    ensures IsRun(xs, ys) && ws <= xs && hs <= ys && |xs| == |ys| + 1 && r.tid in xs[|ys|].jobs
    ensures |xs[|ys|].jobs[r.tid].got| == |r.beats|
    ensures Of(xs[|ys|].memory.sent, r.tid) == [Response(r.tid, xs[|ys|].jobs[r.tid].got)]
  {
    hide IsRun, Of;
    xs, ys := Extend(ws, hs, Arrive(r));
    xs, ys := Serve(xs, ys, r.tid);
    xs, ys := SendAll(xs, ys);
    AnsweredOnce(xs, ys, |ys|, r.tid);
    assert Made(xs[|ys|].memory) == xs[|ys|].memory.sent;
  }

  // ---- What the beats of the DMA engine do ----

  /** The memory as a function of addresses. */
  function View(bytes: seq<Byte>): Bytes { x => if 0 <= x < |bytes| then bytes[x] else 0 }

  /** Word writes done beat by beat leave what the landed writes of a transfer leave. */
  function Landing(bytes: seq<Byte>, ws: seq<WriteReq>): (r: seq<Byte>)
    requires forall w :: w in ws ==> w.addr + 4 <= |bytes|
    ensures |r| == |bytes|
  {
    if ws == [] then bytes
    else
      var w := ws[|ws| - 1];
      assert w in ws;
      Stored(Landing(bytes, ws[..|ws| - 1]), Sw, w.addr, w.data)
  }

  lemma {:induction false} LandingIsByteAfter(bytes: seq<Byte>, ws: seq<WriteReq>, x: int)
    requires (forall w :: w in ws ==> w.addr + 4 <= |bytes|) && 0 <= x < |bytes|
    ensures Landing(bytes, ws)[x] == ByteAfter(View(bytes), ws, x)
  {
    hide ByteOf;
    if ws != [] { LandingIsByteAfter(bytes, ws[..|ws| - 1], x); }
  }

  /** A word read answers the word the DMA model reads. */
  lemma WordReadIsWordAt(bytes: seq<Byte>, addr: Word)
    requires addr + 4 <= |bytes|
    ensures Load(bytes, Lw, addr) == WordAt(View(bytes), addr)
  {}
}
