/** The accelerator around the array: its SRAM, the requests it receives for it, and the unpacking of
    operands. */
module Accelerators {
  import opened Words
  import opened DmaModel
  import opened DmaRuns
  import opened DmaCopy
  import opened Routing
  import opened MatrixMath
  import opened SystolicArrays

  /** A write burst that starts in the range taken for the SRAM. */
  predicate StartsInSram(p: Packet) {
    p.WriteBurst? && p.stores != [] && Dispatch(p.stores[0].addr, |p.stores|).ToSram?
  }

  class Accelerator {
    const core: SystolicArray
    const sram: array<Byte>
    var aAddr: Word
    var bAddr: Word
    var scheduled: seq<WriteReq>

    constructor (n: nat)
      requires n > 0
      ensures Valid() && core.n == n && fresh(core) && fresh(sram) && fresh(core.Buffers())
      ensures core.tileQ == [] && scheduled == []
    {
      aAddr, bAddr, scheduled := 0, 0, [];
      core := new SystolicArray(n);
      sram := new Byte[SRAM_BYTES](_ => 0);
    }

    ghost predicate Valid()
    {
      sram.Length == SRAM_BYTES && core.Shape()
    }

    /** A store of one, two or four bytes; one that is not wholly inside the SRAM is refused and
        changes nothing. */
    method Store(addr: Word, data: Word, size: nat) returns (ok: bool)
      requires Valid() && (size == 1 || size == 2 || size == 4)
      modifies sram
      ensures ok <==> SRAM_BASE <= addr && addr + size <= SRAM_BASE + SRAM_BYTES
      ensures ok ==> forall k :: 0 <= k < SRAM_BYTES ==>
                sram[k] == if addr <= SRAM_BASE + k < addr + size then ByteOf(data, SRAM_BASE + k - addr)
                  else old(sram[k])
      ensures !ok ==> forall k :: 0 <= k < SRAM_BYTES ==> sram[k] == old(sram[k])
    {
      if addr < SRAM_BASE || addr >= SRAM_BASE + SRAM_BYTES { return false; }
      var offset := addr - SRAM_BASE;
      if offset + size > SRAM_BYTES { return false; }
      for i := 0 to size
        invariant forall k :: 0 <= k < SRAM_BYTES ==>
                    sram[k] == if offset <= k < offset + i then ByteOf(data, k - offset) else old(sram[k])
      {
        sram[offset + i] := ByteOf(data, i);
      }
      ok := true;
    }

    /** The bytes of the SRAM are those of `m` from the base of its address range. */
    ghost predicate Mirrors(m: Bytes)
      requires Valid()
      reads sram
    {
      forall k :: 0 <= k < SRAM_BYTES ==> sram[k] == m(SRAM_BASE + k)
    }

    /** A write burst arrives. Its first address decides for all of it: beats for the SRAM are
        scheduled, one apart, so those of several bursts may run in any order. */
    method Deliver(p: Packet) returns (d: Delivery)
      requires p.WriteBurst? && p.stores != []
      modifies this`scheduled
      ensures d == Dispatch(p.stores[0].addr, |p.stores|)
      ensures scheduled == old(scheduled) + (if d.ToSram? then p.stores else [])
    {
      d := Dispatch(p.stores[0].addr, |p.stores|);
      if d.ToSram? { scheduled := scheduled + p.stores; }
    }

    /** The scheduled beats run in `order`. */
    method RunBeats(order: seq<WriteReq>, ghost was: Bytes)
      requires Valid() && Mirrors(was) && multiset(order) == multiset(scheduled)
      requires forall w :: w in order ==> SRAM_BASE <= w.addr && w.addr + 4 <= SRAM_BASE + SRAM_BYTES
      modifies sram, this`scheduled
      ensures Mirrors(x => ByteAfter(was, order, x)) && scheduled == []
    {
      for i := 0 to |order|
        invariant forall k :: 0 <= k < SRAM_BYTES ==> sram[k] == ByteAfter(was, order[..i], SRAM_BASE + k)
      {
        assert order[i] in order;
        var ok := Store(order[i].addr, order[i].data, 4);
        OneMore(was, order, i);
      }
      assert order[..|order|] == order;
      scheduled := [];
    }

    /** The write bursts of a transfer arrive and their beats run: if every burst starts in the range
        taken for the SRAM, all of them land. */
    method Land(packets: seq<Packet>, order: seq<WriteReq>, ghost was: Bytes)
      requires Valid() && Mirrors(was) && scheduled == [] && multiset(order) == multiset(WritesOf(packets))
      requires forall p :: p in packets ==> StartsInSram(p)
      requires forall w :: w in order ==> SRAM_BASE <= w.addr && w.addr + 4 <= SRAM_BASE + SRAM_BYTES
      modifies sram, this`scheduled
      ensures Mirrors(x => ByteAfter(was, order, x)) && scheduled == []
    {
      hide WritesOf;
      NoWrites();
      for i := 0 to |packets|
        invariant scheduled == WritesOf(packets[..i]) && Mirrors(was)
      {
        assert packets[i] in packets && packets[..i + 1] == packets[..i] + [packets[i]];
        WritesOfSplits(packets[..i], [packets[i]]);
        WritesOfOne(packets[i]);
        var d := Deliver(packets[i]);
      }
      assert packets[..|packets|] == packets;
      RunBeats(order, was);
    }

    /** Bytes between the starts of two rows as the unpacking counts them. */
    static function Pitch(stride: nat): nat { 4 * ((stride + 3) / 4) }

    /** The byte from which element (i, j) of a packed matrix is read. */
    static function UnpackAt(addr: Word, i: nat, j: nat, stride: nat): int { addr / 4 * 4 + i * Pitch(stride) + j }

    /** Word `index` of the SRAM. */
    function SramWord(index: nat): Word
      requires sram.Length == SRAM_BYTES && index < SRAM_WORDS
      reads sram
    {
      FourBytes(sram[4 * index], sram[4 * index + 1], sram[4 * index + 2], sram[4 * index + 3])
    }

    lemma UnpackedByte(index: nat, k: nat)
      requires sram.Length == SRAM_BYTES && index < SRAM_WORDS && k < 4
      ensures ByteOf(SramWord(index), k) == sram[4 * index + k]
    {
      Digits(sram[4 * index], sram[4 * index + 1], sram[4 * index + 2], sram[4 * index + 3]);
    }

    /** Unpacks a square matrix from the SRAM words that start at `addr`. */
    method LoadMatrix(m: array2<Byte>, addr: Word, stride: nat)
      requires Valid() && m.Length0 == m.Length1 == SIDE && stride <= SIDE
      requires addr / 4 * 4 + stride * Pitch(stride) <= SRAM_BYTES
      modifies m
      ensures forall i, j :: 0 <= i < SIDE && 0 <= j < SIDE && !(i < stride && j < stride) ==> m[i, j] == old(m[i, j])
      ensures forall i, j :: 0 <= i < stride && 0 <= j < stride ==> Unpacked(m[i, j], addr, i, j, stride)
    {
      for i := 0 to stride
        invariant forall x, y :: 0 <= x < SIDE && 0 <= y < SIDE && !(x < i && y < stride) ==> m[x, y] == old(m[x, y])
        invariant forall x, y :: 0 <= x < i && 0 <= y < stride ==> Unpacked(m[x, y], addr, x, y, stride)
      {
        for j := 0 to stride
          invariant forall x, y :: 0 <= x < SIDE && 0 <= y < SIDE && !(x < i && y < stride) && !(x == i && y < j) ==>
                      m[x, y] == old(m[x, y])
          invariant forall x, y :: 0 <= x < i && 0 <= y < stride ==> Unpacked(m[x, y], addr, x, y, stride)
          invariant forall y :: 0 <= y < j ==> Unpacked(m[i, y], addr, i, y, stride)
        {
          ElementFits(addr, i, j, stride);
          var word := SramWord(addr / 4 + i * ((stride + 3) / 4) + j / 4);
          UnpackedByte(addr / 4 + i * ((stride + 3) / 4) + j / 4, j % 4);
          m[i, j] := ByteOf(word, j % 4);
        }
      }
    }

    /** `v` is byte `j` of row `i` of the packed matrix at `addr`. */
    ghost predicate Unpacked(v: Byte, addr: Word, i: nat, j: nat, stride: nat)
      reads sram
    {
      var at := UnpackAt(addr, i, j, stride);
      0 <= at < sram.Length && v == sram[at]
    }

    static lemma ElementFits(addr: Word, i: nat, j: nat, stride: nat)
      requires i < stride && j < stride && addr / 4 * 4 + stride * Pitch(stride) <= SRAM_BYTES
      ensures 0 <= addr / 4 + i * ((stride + 3) / 4) + j / 4 < SRAM_WORDS
      ensures 4 * (addr / 4 + i * ((stride + 3) / 4) + j / 4) + j % 4 ==
                addr / 4 * 4 + i * Pitch(stride) + j < SRAM_BYTES
    {
      var q := (stride + 3) / 4;
      Monotone(i + 1, stride, 4 * q);
      Fourfold(i, q);
      assert j < 4 * q;
    }

    static lemma Fourfold(i: nat, q: nat)
      ensures i * (4 * q) == 4 * (i * q) && 0 <= i * q
    {}

    /** ENABLE: the matrices start from zero. */
    method Clear()
      requires Valid()
      modifies core.aMatrix, core.bMatrix, core.cMatrix
      ensures Cleared()
    {
      for i := 0 to SIDE
        invariant forall x, y :: 0 <= x < i && 0 <= y < SIDE ==>
                    core.aMatrix[x, y] == 0 && core.bMatrix[x, y] == 0 && core.cMatrix[x, y] == 0
      {
        for j := 0 to SIDE
          invariant forall x, y :: 0 <= x < SIDE && 0 <= y < SIDE && (x < i || (x == i && y < j)) ==>
                      core.aMatrix[x, y] == 0 && core.bMatrix[x, y] == 0 && core.cMatrix[x, y] == 0
        {
          core.aMatrix[i, j], core.bMatrix[i, j], core.cMatrix[i, j] := 0, 0, 0;
        }
      }
    }

    ghost predicate Cleared()
      requires Valid()
      reads core, core.aMatrix, core.bMatrix, core.cMatrix
    {
      forall x, y :: 0 <= x < SIDE && 0 <= y < SIDE ==>
        core.aMatrix[x, y] == 0 && core.bMatrix[x, y] == 0 && core.cMatrix[x, y] == 0
    }

    /** The answer that matrix B is loaded: unpack both matrices and multiply. `mem` is the data
        memory and `home`s the places of the operands in it. */
    method Multiply(ghost mem: Bytes, ghost aHome: int, ghost bHome: int, outside: (nat, nat) -> SystolicTile.Valid8)
      requires Valid() && Cleared() && core.tileQ == []
      requires core.strideA == core.strideB <= SIDE && core.strideA % 4 == 0
      requires aAddr % 4 == 0 && bAddr % 4 == 0
      requires aAddr + core.strideA * core.strideA <= SRAM_BYTES && bAddr + core.strideA * core.strideA <= SRAM_BYTES
      requires Brought(mem, aHome, aAddr, core.strideA) && Brought(mem, bHome, bAddr, core.strideA)
      modifies core`tileQ, core`now, core`done, core.aTile, core.bTile, core.tileResult, core.aMatrix, core.bMatrix
      modifies core.cMatrix
      ensures core.done && core.strideA == old(core.strideA)
      ensures forall r, c :: 0 <= r < 64 && 0 <= c < 64 ==>
                core.cMatrix[r, c] ==
                if r < core.strideA && c < core.strideA
                then MemoryProduct(mem, aHome, bHome, core.strideA, r, c, core.strideA) % 0x1_0000 else 0
      ensures forall r, c :: 0 <= r < 64 && 0 <= c < 64 && r < core.strideA && c < core.strideA ==>
                var exact := MemoryProduct(mem, aHome, bHome, core.strideA, r, c, core.strideA);
                && 0 <= core.cMatrix[r, c] < 65536 && (exact - core.cMatrix[r, c]) % 65536 == 0
                && (exact <= 65535 ==> core.cMatrix[r, c] == exact)
    {
      hide Rows, Dot, Same, Brought, MemoryProduct, SystolicTiling.RowTasks;
      ghost var s := core.strideA;
      Unpack(mem, aHome, bHome);
      ghost var am, bm := Rows(core.aMatrix), Rows(core.bMatrix);
      core.ComputeMatrix(outside);
      forall r: nat, c: nat | r < s && c < s
        ensures Dot(am, bm, r, c, 0, s) == MemoryProduct(mem, aHome, bHome, s, r, c, s)
      {
        DotFromMemory(am, bm, mem, aHome, bHome, s, r, c, s);
      }
    }

    /** Both matrices unpacked from the SRAM. */
    method Unpack(ghost mem: Bytes, ghost aHome: int, ghost bHome: int)
      requires Valid() && core.strideA == core.strideB <= SIDE && core.strideA % 4 == 0
      requires aAddr % 4 == 0 && bAddr % 4 == 0
      requires aAddr + core.strideA * core.strideA <= SRAM_BYTES && bAddr + core.strideA * core.strideA <= SRAM_BYTES
      requires Brought(mem, aHome, aAddr, core.strideA) && Brought(mem, bHome, bAddr, core.strideA)
      modifies core.aMatrix, core.bMatrix
      ensures Same(Rows(core.aMatrix), mem, aHome, core.strideA) && Same(Rows(core.bMatrix), mem, bHome, core.strideA)
    {
      hide Rows, Unpacked, Brought, Same;
      ghost var s := core.strideA;
      assert Pitch(s) == s && s * Pitch(s) == s * s;
      LoadMatrix(core.aMatrix, aAddr, core.strideA);
      LoadMatrix(core.bMatrix, bAddr, core.strideB);
      SameElements(core.aMatrix, mem, aHome, aAddr, s);
      SameElements(core.bMatrix, mem, bHome, bAddr, s);
    }

    /** Rows of `stride` bytes at offset `addr` of the SRAM hold the rows at `home` in memory. */
    ghost predicate Brought(mem: Bytes, home: int, addr: Word, stride: nat)
      reads sram
    {
      forall r: nat, c: nat :: r < stride && c < stride ==> Held(mem, home, addr, stride, r, c)
    }

    ghost predicate Held(mem: Bytes, home: int, addr: Word, stride: nat, r: nat, c: nat)
      reads sram
    {
      0 <= addr + r * stride + c < sram.Length ==> sram[addr + r * stride + c] == mem(home + r * stride + c)
    }

    lemma SameElements(m: array2<Byte>, mem: Bytes, home: int, addr: Word, s: nat)
      requires Valid() && addr % 4 == 0 && s % 4 == 0 && Brought(mem, home, addr, s) && m.Length0 == m.Length1 == SIDE
      requires s <= SIDE
      requires forall i, j :: 0 <= i < s && 0 <= j < s ==> Unpacked(m[i, j], addr, i, j, s)
      ensures Same(Rows(m), mem, home, s)
    {
      hide UnpackAt;
      forall r: nat, c: nat | r < s && c < s
        ensures Entry(Rows(m), r, c) == mem(home + r * s + c)
      {
        assert Unpacked(m[r, c], addr, r, c, s) && Held(mem, home, addr, s, r, c);
        WholeRows(addr, r, c, s);
      }
    }

    /** With whole words the unpacking takes the rows as they lie. */
    static lemma WholeRows(addr: Word, r: nat, c: nat, s: nat)
      requires addr % 4 == 0 && s % 4 == 0
      ensures UnpackAt(addr, r, c, s) == addr + r * s + c
    {
      assert Pitch(s) == s && addr / 4 * 4 == addr;
    }
  }

  lemma NoWrites()
    ensures WritesOf([]) == []
  {}

  lemma WritesOfOne(p: Packet)
    requires p.WriteBurst?
    ensures WritesOf([p]) == p.stores
  {
    assert p.stores + [] == p.stores;
  }

  lemma OneMore(m: Bytes, ws: seq<WriteReq>, i: nat)
    requires i < |ws|
    ensures forall x :: ByteAfter(m, ws[..i + 1], x) ==
              if Covers(ws[i], x) then ByteOf(ws[i].data, x - ws[i].addr) else ByteAfter(m, ws[..i], x)
  {
    assert ws[..i + 1][..i] == ws[..i];
  }

  // ---- Products in data memory ----

  /** Matrix `m` has the entries of the square matrix at `home`. */
  ghost predicate Same(m: Matrix, mem: Bytes, home: int, s: nat) {
    forall r: nat, c: nat :: r < s && c < s ==> Entry(m, r, c) == mem(home + r * s + c)
  }

  /** The first `n` terms of entry (r, c) of the product of two row-major s by s matrices in memory. */
  function MemoryProduct(mem: Bytes, a: int, b: int, s: nat, r: nat, c: nat, n: nat): int {
    if n == 0 then 0
    else MemoryProduct(mem, a, b, s, r, c, n - 1) + mem(a + r * s + (n - 1)) * mem(b + (n - 1) * s + c)
  }

  lemma {:induction false} DotFromMemory(am: Matrix, bm: Matrix, mem: Bytes, a: int, b: int, s: nat, r: nat, c: nat,
                                         n: nat)
    requires Same(am, mem, a, s) && Same(bm, mem, b, s) && r < s && c < s && n <= s
    ensures Dot(am, bm, r, c, 0, n) == MemoryProduct(mem, a, b, s, r, c, n)
  {
    if n > 0 { DotFromMemory(am, bm, mem, a, b, s, r, c, n - 1); }
  }
}
