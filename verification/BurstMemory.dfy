/** The data memory as it runs, one beat at a time. Every method is one step of `BurstModel`. */
module BurstMemories {
  import opened Words
  import opened DmaModel
  import opened DmaCopy
  import opened BurstModel

  class BurstMemory {
    const bytes: array<Byte>
    var pending: map<int, Tracker>
    var respQ: seq<Response>
    var sent: seq<Response>

    constructor (size: nat)
      ensures fresh(bytes) && bytes.Length == size && pending == map[] && respQ == [] && sent == []
    {
      bytes := new Byte[size](_ => 0);
      pending, respQ, sent := map[], [], [];
    }

    ghost function State(): Memory
      reads this, bytes
    {
      Memory(bytes[..], pending, respQ, sent)
    }

    /** A request packet is popped. */
    method AcceptRequest(r: Request)
      modifies this`pending
      ensures State() == Accept(old(State()), r)
    {
      if r.tid !in pending { pending := pending[r.tid := Tracker(0, [], [])]; }
      pending := pending[r.tid := pending[r.tid].(expected := |r.beats|)];
    }

    method MemReadReqHandler(tid: int, b: Beat)
      requires Loads(b.op) && b.addr + Size(b.op) <= bytes.Length
      modifies this`pending, this`respQ
      ensures State() == HandleBeat(old(State()), tid, b)
    {
      var value: Word := 0;
      match b.op {
        case Lb => value := if bytes[b.addr] < 0x80 then bytes[b.addr] else FourBytes(bytes[b.addr], 0xFF, 0xFF, 0xFF);
        case Lbu => value := bytes[b.addr];
        case Lh =>
          var top := if bytes[b.addr + 1] < 0x80 then 0 else 0xFF;
          value := FourBytes(bytes[b.addr], bytes[b.addr + 1], top, top);
        case Lhu => value := FourBytes(bytes[b.addr], bytes[b.addr + 1], 0, 0);
        case Lw => value := FourBytes(bytes[b.addr], bytes[b.addr + 1], bytes[b.addr + 2], bytes[b.addr + 3]);
      }
      CollectReply(tid, true, ReadReply(b.tag, value));
    }

    method MemWriteReqHandler(tid: int, b: Beat)
      requires !Loads(b.op) && b.addr + Size(b.op) <= bytes.Length
      modifies this`pending, this`respQ, bytes
      ensures State() == HandleBeat(old(State()), tid, b)
    {
      WriteData(b);
      CollectReply(tid, false, WriteReply);
    }

    method WriteData(b: Beat)
      requires !Loads(b.op) && b.addr + Size(b.op) <= bytes.Length
      modifies bytes
      ensures bytes[..] == Stored(old(bytes[..]), b.op, b.addr, b.data)
    {
      var n := Size(b.op);
      for i := 0 to n
        invariant forall x :: 0 <= x < bytes.Length ==>
                    bytes[x] == if b.addr <= x < b.addr + i then ByteOf(b.data, x - b.addr) else old(bytes[x])
      {
        bytes[b.addr + i] := ByteOf(b.data, i);
      }
    }

    /** Both handlers keep their replies in the tracker until it is full. */
    method CollectReply(tid: int, read: bool, reply: Reply)
      modifies this`pending, this`respQ
      ensures State() == Collect(old(State()), tid, read, reply)
    {
      var tk := if tid in pending then pending[tid] else Tracker(0, [], []);
      if tk.expected < 1 { tk := tk.(expected := 1); }
      if read { tk := tk.(read := tk.read + [reply]); } else { tk := tk.(written := tk.written + [reply]); }
      var replies := if read then tk.read else tk.written;
      if |replies| == tk.expected {
        pending := pending - {tid};
        respQ := respQ + [Response(tid, replies)];
      } else {
        pending := pending[tid := tk];
      }
    }

    method TrySendResponse(taken: bool)
      modifies this`respQ, this`sent
      ensures State() == Send(old(State()), taken)
    {
      if respQ != [] && taken { respQ, sent := respQ[1..], sent + [respQ[0]]; }
    }
  }
}
