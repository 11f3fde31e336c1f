/** The multi-cycle data memory controller. */
module DataMemory {
  import opened Words
  import opened Rv32Datapath

  datatype Phase = Idle | Reading | Writing | Waiting

  datatype Dm = Dm(
    phase: Phase, counter: nat,
    readAddr: Addr, writeAddr: Addr, writeData: Word, length: Word,
    data: Word, bytes: Bytes)

  /** The request lines; the core drives the read and the write address alike. */
  datatype Request = Request(read: bool, write: bool, length: Word, addr: Addr, wdata: Word)

  function Reset(bytes: Bytes): Dm {
    Dm(Idle, 0, 0, 0, 0, 0, 0, bytes)
  }

  /** The counter comparison is the same in every phase. */
  predicate Ready(latency: nat, d: Dm) {
    d.counter == latency - 1
  }

  /** One clock edge. */
  function DmNext(latency: nat, d: Dm, q: Request): Dm {
    match d.phase
    case Idle =>
      if q.read then
        d.(readAddr := q.addr, length := q.length, counter := 1, phase := if Ready(latency, d) then Idle else Reading)
      else if q.write then
        d.(writeAddr := q.addr, writeData := q.wdata, length := q.length, counter := 1,
           phase := if Ready(latency, d) then Idle else Writing)
      else
        d.(counter := 0)
    case Reading =>
      Advance(latency, d).(data := LoadValue(d.length, d.readAddr, d.bytes))
    case Writing =>
      Advance(latency, d).(bytes := StoreBytes(d.length, d.writeAddr, d.writeData, d.bytes))
    case Waiting =>
      Advance(latency, d)
  }

  function Advance(latency: nat, d: Dm): Dm {
    if Ready(latency, d) then d.(phase := Idle, counter := 0) else d.(phase := Waiting, counter := d.counter + 1)
  }

  /** A request held on the lines for `n` edges. */
  function Held(latency: nat, d: Dm, q: Request, n: nat): Dm {
    if n == 0 then d else DmNext(latency, Held(latency, d, q, n - 1), q)
  }

  predicate AtRest(d: Dm) { d.phase == Idle && d.counter == 0 }

  /** The bytes once the request has been carried out. */
  function BytesAfter(q: Request, m: Bytes): Bytes {
    if q.read then m else StoreBytes(q.length, q.addr, q.wdata, m)
  }

  /** Where a held request stands after `n` edges, 1 <= n < latency: the counter tells the time,
      a store has updated the bytes from the second edge on and never again, a load has its
      value latched from the second edge on. */
  lemma {:induction false} HeldRequest(latency: nat, d: Dm, q: Request, n: nat)
    requires latency >= 3 && AtRest(d) && q.read != q.write
    requires 1 <= n < latency
    ensures var h := Held(latency, d, q, n);
            && h.counter == n
            && h.phase == (if n >= 2 then Waiting else if q.read then Reading else Writing)
            && h.bytes == (if n >= 2 then BytesAfter(q, d.bytes) else d.bytes)
            && h.length == q.length
            && (q.read ==> h.readAddr == q.addr)
            && (q.write ==> h.writeAddr == q.addr && h.writeData == q.wdata)
            && (q.read && n >= 2 ==> h.data == LoadValue(q.length, q.addr, d.bytes))
  {
    hide LoadValue, StoreBytes;
    if n > 1 {
      HeldRequest(latency, d, q, n - 1);
      if n == 2 {
        assert Held(latency, d, q, 2) == DmNext(latency, Held(latency, d, q, 1), q);
      }
    } else {
      assert Held(latency, d, q, 1) == DmNext(latency, Held(latency, d, q, 0), q);
    }
  }

  /** The controller's contract for every latency of three or more: a request held from rest is
      answered exactly `latency - 1` cycles later and no earlier; the answer to a load is the
      value in memory when it was made; a store has updated its bytes exactly once; and one edge
      later the controller is at rest again. */
  lemma RequestServed(latency: nat, d: Dm, q: Request)
    requires latency >= 3 && AtRest(d) && q.read != q.write
    ensures forall n: nat :: n < latency ==> (Ready(latency, Held(latency, d, q, n)) <==> n == latency - 1)
    ensures q.read ==> Held(latency, d, q, latency - 1).data == LoadValue(q.length, q.addr, d.bytes)
    ensures AtRest(Held(latency, d, q, latency))
    ensures Held(latency, d, q, latency).bytes == BytesAfter(q, d.bytes)
  {
    hide LoadValue, StoreBytes;
    forall n: nat | n < latency
      ensures Ready(latency, Held(latency, d, q, n)) <==> n == latency - 1
    {
      if n > 0 { HeldRequest(latency, d, q, n); }
    }
    HeldRequest(latency, d, q, latency - 1);
  }

  /** The load value is on the data lines when the answer comes, for every request and memory,
      exactly when the latency is at least three: at two, the answer and the latching of the
      value fall on the same cycle. */
  lemma LoadAnswerFresh(latency: nat)
    requires latency >= 2
    ensures (forall d: Dm, q: Request :: AtRest(d) && q.read && !q.write ==>
              Held(latency, d, q, latency - 1).data == LoadValue(q.length, q.addr, d.bytes))
            <==> latency >= 3
  {
    if latency >= 3 {
      forall d: Dm, q: Request | AtRest(d) && q.read && !q.write
        ensures Held(latency, d, q, latency - 1).data == LoadValue(q.length, q.addr, d.bytes)
      {
        RequestServed(latency, d, q);
      }
    } else {
      var m: Bytes := seq(0x8000, _ => 0);
      var d := Reset(m).(data := 1);
      var q := Request(true, false, 3, 0, 0);
      assert Held(2, d, q, 1) == DmNext(2, Held(2, d, q, 0), q);
      assert Held(2, d, q, 1).data == 1 && LoadValue(3, 0, m) == 0;
    }
  }

  /** At latency one a request is answered in the cycle it is made and comes to nothing: no phase is entered, no
      byte is written, no value latched; with the request gone the controller is at rest an edge later. */
  lemma LatencyOne(d: Dm, q: Request, idle: Request)
    requires AtRest(d) && q.read != q.write && !idle.read && !idle.write
    ensures Ready(1, d)
    ensures var n := DmNext(1, d, q); n.phase == Idle && n.bytes == d.bytes && n.data == d.data
    ensures AtRest(DmNext(1, DmNext(1, d, q), idle)) && DmNext(1, DmNext(1, d, q), idle).bytes == d.bytes
  {}

  /** After `n` edges a held store has updated its bytes, for every request and memory. */
  ghost predicate StoredBy(latency: nat, n: nat) {
    forall d: Dm, q: Request :: AtRest(d) && q.write && !q.read ==>
      Held(latency, d, q, n).bytes == BytesAfter(q, d.bytes)
  }

  /** That is so when the answer comes, exactly for a latency of at least three, and an edge later exactly for one
      of at least two. */
  lemma StoreLands(latency: nat)
    requires latency >= 1
    ensures StoredBy(latency, latency - 1) <==> latency >= 3
    ensures StoredBy(latency, latency) <==> latency >= 2
  {
    if latency >= 3 {
      StoreInTime(latency);
    } else {
      StoreLate(latency);
      if latency == 2 { StoreAtTwo(); }
    }
  }

  lemma StoreInTime(latency: nat)
    requires latency >= 3
    ensures StoredBy(latency, latency - 1) && StoredBy(latency, latency)
  {
    hide LoadValue, StoreBytes, Held;
    forall d: Dm, q: Request | AtRest(d) && q.write && !q.read
      ensures Held(latency, d, q, latency - 1).bytes == BytesAfter(q, d.bytes)
      ensures Held(latency, d, q, latency).bytes == BytesAfter(q, d.bytes)
    {
      RequestServed(latency, d, q);
      HeldRequest(latency, d, q, latency - 1);
    }
  }

  lemma StoreAtTwo()
    ensures StoredBy(2, 2)
  {
    hide LoadValue, StoreBytes;
    forall d: Dm, q: Request | AtRest(d) && q.write && !q.read
      ensures Held(2, d, q, 2).bytes == BytesAfter(q, d.bytes)
    {
      HeldOne(2, d, q);
      assert Held(2, d, q, 2) == DmNext(2, Held(2, d, q, 1), q);
    }
  }

  lemma HeldOne(latency: nat, d: Dm, q: Request)
    ensures Held(latency, d, q, 0) == d && Held(latency, d, q, 1) == DmNext(latency, d, q)
  {
    assert Held(latency, d, q, 1) == DmNext(latency, Held(latency, d, q, 0), q);
  }

  /** Before that a byte is still the old one. */
  lemma StoreLate(latency: nat)
    requires 1 <= latency <= 2
    ensures !StoredBy(latency, latency - 1) && !StoredBy(1, 1)
  {
    hide StoreBytes, LoadValue;
    var m: Bytes := seq(0x8000, _ => 0);
    var d, q := Reset(m), Request(false, true, BYTE, 0, 1);
    OneByteStored(m);
    HeldOne(latency, d, q);
    HeldOne(1, d, q);
  }

  lemma OneByteStored(m: Bytes)
    requires m[0] == 0
    ensures StoreBytes(BYTE, 0, 1, m) != m
  {
    assert StoreBytes(BYTE, 0, 1, m)[0] == 1;
  }
}
