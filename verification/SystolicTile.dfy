/** One tile on the weight-stationary systolic array: preload, propagate and flush, cycle by cycle
    on the grid of processing elements. */
module SystolicTile {
  import opened Words
  import opened MatrixMath

  datatype Valid8 = Valid8(valid: bool, data: Byte)
  datatype Valid16 = Valid16(valid: bool, sum: Half)
  datatype PE = PE(weightReg: Valid8, inReg: Valid8, fwdIn: Valid8, psumReg: Valid16, fwdPsum: Valid16)

  const IdlePE := PE(Valid8(false, 0), Valid8(false, 0), Valid8(false, 0), Valid16(false, 0), Valid16(false, 0))

  /** The multiply-accumulate of one element, with what the element above forwards. */
  function Mac(p: PE, above: Valid16): Valid16 {
    if p.weightReg.valid && p.inReg.valid then
      ProductIsNat(p.inReg.data, p.weightReg.data);
      Valid16(true, Add16(if above.valid then above.sum else 0, p.inReg.data * p.weightReg.data))
    else p.psumReg.(valid := false)
  }

  lemma MacAdds(p: PE, above: Valid16, s: nat, x: Byte, w: Byte)
    requires p.weightReg == Valid8(true, w) && p.inReg == Valid8(true, x)
    requires if above.valid then above.sum == s % 0x1_0000 else s == 0
    ensures Mac(p, above) == Valid16(true, (s + x * w) % 0x1_0000)
  {
    Accumulate(s, x * w);
  }

  lemma MacRests(p: PE, above: Valid16)
    requires !p.inReg.valid
    ensures !Mac(p, above).valid
  {}

  /** An element whose sum has been taken out of it. */
  function Bubbled(p: PE): PE {
    p.(psumReg := p.psumReg.(valid := false), fwdPsum := p.fwdPsum.(valid := false))
  }

  /** What column 0 receives in propagate cycle `cycle`: row `i` of the grid sees column `i` of
      the tile, delayed by `i` cycles. */
  function Injected(a: Matrix, n: nat, cycle: nat, i: nat): Valid8 {
    var row := cycle - i;
    if 0 <= row < n then Valid8(true, Entry(a, row, i)) else Valid8(false, 0)
  }

  /** How many results column `j` has emitted once `t` cycles have run. */
  function Emitted(n: nat, t: nat, j: nat): nat {
    var k := t - (n - 1) - j;
    if k < 0 then 0 else if k < n then k else n
  }

  /** The grid with its results and the two tiles it works on. */
  class Grid {
    const n: nat
    const a: Matrix
    const b: Matrix
    const pe: array2<PE>
    const result: array2<Half>
    const emitRow: array<nat>

    constructor (n: nat, a: Matrix, b: Matrix)
      ensures this.n == n && this.a == a && this.b == b
      ensures fresh(pe) && fresh(result) && fresh(emitRow)
      ensures Shape() && Preloaded(0) && Wavefront(0)
    {
      this.n, this.a, this.b := n, a, b;
      pe := new PE[n, n]((_, _) => IdlePE);
      result := new Half[n, n]((_, _) => 0);
      emitRow := new nat[n](_ => 0);
    }

    predicate Shape() {
      && pe.Length0 == pe.Length1 == result.Length0 == result.Length1 == emitRow.Length == n
      && pe as object != result && pe as object != emitRow && result as object != emitRow
    }

    /** After `k` preload cycles the first `k` grid rows hold the last `k` rows of B in order. */
    ghost predicate Preloaded(k: nat)
      requires Shape() && k <= n
      reads pe
    {
      forall i, j :: 0 <= i < k && 0 <= j < n ==> pe[i, j].weightReg == Valid8(true, Entry(b, n - k + i, j))
    }

    /** The state of the computation after `t` propagate and flush cycles. In the part of the grid
        that input injected during the flush has not reached, an element forwards row t-1-i-j of
        the A tile, if there is such a row, and the sum of its first i+1 products; column `j` has
        emitted its first Emitted(n, t, j) results. */
    ghost predicate Wavefront(t: nat)
      requires Shape()
      reads pe, result, emitRow
    {
      && (forall i, j :: 0 <= i < n && 0 <= j < n ==> InputAt(i, j, t))
      && (forall i, j :: 0 <= i < n - 1 && 0 <= j < n ==> SumAt(i, j, t))
      && Results(t)
    }

    ghost predicate Results(t: nat)
      requires Shape()
      reads result, emitRow
    {
      && (forall j :: 0 <= j < n ==> emitRow[j] == Emitted(n, t, j))
      && (forall i, j :: 0 <= j < n && 0 <= i < Emitted(n, t, j) ==> result[i, j] == Dot(a, b, i, j, 0, n) % 0x1_0000)
    }

    /** After `t` cycles, nothing that entered during the flush has reached column `j`. */
    predicate Clean(j: nat, t: nat) { t - 1 - j <= 2 * n - 2 }

    ghost predicate InputAt(i: nat, j: nat, t: nat)
      requires Shape() && i < n && j < n
      reads pe
    {
      var row := t - 1 - i - j;
      Clean(j, t) ==> if 0 <= row < n then pe[i, j].fwdIn == Valid8(true, Entry(a, row, i)) else !pe[i, j].fwdIn.valid
    }

    ghost predicate SumAt(i: nat, j: nat, t: nat)
      requires Shape() && i < n && j < n
      reads pe
    {
      var row := t - 1 - i - j;
      Clean(j, t) ==> if 0 <= row < n then pe[i, j].fwdPsum == Valid16(true, Dot(a, b, row, j, 0, i + 1) % 0x1_0000)
        else !pe[i, j].fwdPsum.valid
    }

    /** The state after the first `k` events of a tile. */
    ghost predicate Progress(k: nat)
      requires Shape()
      reads pe, result, emitRow
    {
      if k <= n then Preloaded(k) && Wavefront(0) else Preloaded(n) && Wavefront(k - n)
    }

    lemma StartProgress()
      requires Shape() && Preloaded(0) && Wavefront(0)
      ensures Progress(0)
    {}

    /** Shifts the weights one row down, from the bottom up, and loads row `source` of B on top. */
    method ShiftWeights(source: nat)
      requires Shape() && n > 0
      modifies pe
      ensures forall i, j :: 0 <= i < n && 0 <= j < n ==>
                pe[i, j] == old(pe[i, j]).(weightReg := if i > 0 then old(pe[i - 1, j]).weightReg
                  else Valid8(true, Entry(b, source, j)))
    {
      var i := n - 1;
      while i >= 1
        invariant 0 <= i < n
        invariant forall x, y :: 0 <= x < n && 0 <= y < n ==>
                    pe[x, y] == if x > i then old(pe[x, y]).(weightReg := old(pe[x - 1, y]).weightReg)
                      else old(pe[x, y])
      {
        for j := 0 to n
          invariant forall x, y :: 0 <= x < n && 0 <= y < n ==>
                      pe[x, y] == if x > i || (x == i && y < j)
                        then old(pe[x, y]).(weightReg := old(pe[x - 1, y]).weightReg)
                                  else old(pe[x, y])
        {
          pe[i, j] := pe[i, j].(weightReg := pe[i - 1, j].weightReg);
        }
        i := i - 1;
      }
      for j := 0 to n
        invariant forall x, y :: 0 <= x < n && 0 <= y < n ==>
                    pe[x, y] == if x > 0 then old(pe[x, y]).(weightReg := old(pe[x - 1, y]).weightReg)
                                else if y < j then old(pe[x, y]).(weightReg := Valid8(true, Entry(b, source, y)))
                                else old(pe[x, y])
      {
        pe[0, j] := pe[0, j].(weightReg := Valid8(true, Entry(b, source, j)));
      }
    }

    /** One preload cycle. */
    method PreloadWeight(cycle: nat)
      requires Shape() && cycle < n && Preloaded(cycle) && Wavefront(0)
      modifies pe
      ensures Preloaded(cycle + 1) && Wavefront(0)
    {
      hide Entry, Dot;
      label Before:
      ShiftWeights(n - 1 - cycle);
      forall i, j | 0 <= i < n && 0 <= j < n
        ensures InputAt(i, j, 0) && (i < n - 1 ==> SumAt(i, j, 0))
      {
        assert old@Before(InputAt(i, j, 0));
        assert i < n - 1 ==> old@Before(SumAt(i, j, 0));
      }
    }

    /** Propagate, step 1: every element takes what its left neighbour forwarded; column 0 takes
        the skewed rows of A. */
    method InjectA(cycle: nat)
      requires Shape()
      modifies pe
      ensures forall i, j :: 0 <= i < n && 0 <= j < n ==>
                pe[i, j] == old(pe[i, j]).(inReg := if j == 0 then Injected(a, n, cycle, i)
                  else old(pe[i, j - 1]).fwdIn)
    {
      for i := 0 to n
        invariant forall x, y :: 0 <= x < n && 0 <= y < n ==>
                    pe[x, y] == if x < i then old(pe[x, y]).(inReg := if y == 0 then Injected(a, n, cycle, x)
                      else old(pe[x, y - 1]).fwdIn)
                                else old(pe[x, y])
      {
        var j := n;
        while j > 0
          invariant 0 <= j <= n
          invariant forall x, y :: 0 <= x < n && 0 <= y < n ==>
                      pe[x, y] == if x < i || (x == i && y >= j)
                                  then old(pe[x, y]).(inReg := if y == 0 then Injected(a, n, cycle, x)
                                  else old(pe[x, y - 1]).fwdIn)
                                  else old(pe[x, y])
        {
          j := j - 1;
          if j == 0 {
            pe[i, j] := pe[i, j].(inReg := Injected(a, n, cycle, i));
          } else {
            pe[i, j] := pe[i, j].(inReg := pe[i, j - 1].fwdIn);
          }
        }
      }
    }

    /** Flush, step 1: the same shift, but column 0 reads the element left of the grid, whatever
        that holds. */
    method ShiftIn(outside: seq<Valid8>)
      requires Shape() && |outside| == n
      modifies pe
      ensures forall i, j :: 0 <= i < n && 0 <= j < n ==>
                pe[i, j] == old(pe[i, j]).(inReg := if j == 0 then outside[i] else old(pe[i, j - 1]).fwdIn)
    {
      for i := 0 to n
        invariant forall x, y :: 0 <= x < n && 0 <= y < n ==>
                    pe[x, y] == if x < i then old(pe[x, y]).(inReg := if y == 0 then outside[x]
                      else old(pe[x, y - 1]).fwdIn)
                                else old(pe[x, y])
      {
        var j := n;
        while j > 0
          invariant 0 <= j <= n
          invariant forall x, y :: 0 <= x < n && 0 <= y < n ==>
                      pe[x, y] == if x < i || (x == i && y >= j)
                                  then old(pe[x, y]).(inReg := if y == 0 then outside[x] else old(pe[x, y - 1]).fwdIn)
                                  else old(pe[x, y])
        {
          j := j - 1;
          pe[i, j] := pe[i, j].(inReg := if j == 0 then outside[i] else pe[i, j - 1].fwdIn);
        }
      }
    }

    /** Step 2: multiply and accumulate, from the bottom row up. */
    method MultiplyAccumulate()
      requires Shape()
      modifies pe
      ensures forall i, j :: 0 <= i < n && 0 <= j < n ==>
                pe[i, j] == old(pe[i, j]).(psumReg := Mac(old(pe[i, j]), if i > 0 then old(pe[i - 1, j]).fwdPsum
                  else Valid16(false, 0)))
    {
      var i := n;
      while i > 0
        invariant 0 <= i <= n
        invariant forall x, y :: 0 <= x < n && 0 <= y < n ==>
                    pe[x, y] == if x >= i then old(pe[x, y]).(psumReg := Mac(old(pe[x, y]), if x > 0
                      then old(pe[x - 1, y]).fwdPsum else Valid16(false, 0)))
                                else old(pe[x, y])
      {
        i := i - 1;
        for j := 0 to n
          invariant forall x, y :: 0 <= x < n && 0 <= y < n ==>
                      pe[x, y] == if x > i || (x == i && y < j)
                                  then old(pe[x, y]).(psumReg := Mac(old(pe[x, y]), if x > 0
                                  then old(pe[x - 1, y]).fwdPsum else Valid16(false, 0)))
                                  else old(pe[x, y])
        {
          pe[i, j] := pe[i, j].(psumReg := Mac(pe[i, j], if i > 0 then pe[i - 1, j].fwdPsum else Valid16(false, 0)));
        }
      }
    }

    /** Step 3: both pipelines move on. */
    method Forward()
      requires Shape()
      modifies pe
      ensures forall i, j :: 0 <= i < n && 0 <= j < n ==>
                pe[i, j] == old(pe[i, j]).(fwdIn := old(pe[i, j]).inReg, fwdPsum := old(pe[i, j]).psumReg)
    {
      var i := n;
      while i > 0
        invariant 0 <= i <= n
        invariant forall x, y :: 0 <= x < n && 0 <= y < n ==>
                    pe[x, y] == if x >= i
                      then old(pe[x, y]).(fwdIn := old(pe[x, y]).inReg, fwdPsum := old(pe[x, y]).psumReg)
                                else old(pe[x, y])
      {
        i := i - 1;
        for j := 0 to n
          invariant forall x, y :: 0 <= x < n && 0 <= y < n ==>
                      pe[x, y] == if x > i || (x == i && y < j)
                        then old(pe[x, y]).(fwdIn := old(pe[x, y]).inReg, fwdPsum := old(pe[x, y]).psumReg)
                                  else old(pe[x, y])
        {
          pe[i, j] := pe[i, j].(fwdIn := pe[i, j].inReg, fwdPsum := pe[i, j].psumReg);
        }
      }
    }

    /** Column `j` has a result to emit and room for it. */
    predicate Emits(j: nat)
      requires Shape() && j < n
      reads pe, emitRow
    {
      pe[n - 1, j].psumReg.valid && emitRow[j] < n
    }

    /** Step 4: the valid sums of the bottom row become results and leave a bubble. */
    method Emit()
      requires Shape()
      modifies pe, result, emitRow
      ensures forall i, j :: 0 <= i < n && 0 <= j < n ==>
                pe[i, j] == if i == n - 1 && old(Emits(j)) then Bubbled(old(pe[i, j])) else old(pe[i, j])
      ensures forall j :: 0 <= j < n ==> emitRow[j] == old(emitRow[j]) + if old(Emits(j)) then 1 else 0
      ensures forall i, j :: 0 <= i < n && 0 <= j < n ==>
                result[i, j] == if old(Emits(j)) && i == old(emitRow[j]) then old(pe[n - 1, j]).psumReg.sum
                  else old(result[i, j])
    {
      for j := 0 to n
        invariant forall x, y :: 0 <= x < n && 0 <= y < n ==>
                    pe[x, y] == if x == n - 1 && y < j && old(Emits(y)) then Bubbled(old(pe[x, y])) else old(pe[x, y])
        invariant forall y :: 0 <= y < n ==> emitRow[y] == old(emitRow[y]) + if y < j && old(Emits(y)) then 1 else 0
        invariant forall x, y :: 0 <= x < n && 0 <= y < n ==>
                    result[x, y] == if y < j && old(Emits(y)) && x == old(emitRow[y])
                      then old(pe[n - 1, y]).psumReg.sum else old(result[x, y])
      {
        var bottom := pe[n - 1, j];
        if bottom.psumReg.valid && emitRow[j] < n {
          result[emitRow[j], j] := bottom.psumReg.sum;
          emitRow[j] := emitRow[j] + 1;
          pe[n - 1, j] := Bubbled(bottom);
        }
      }
    }

    /** The inputs of the cycle that ends at `t` are in place; sums, counters and results still
        stand where the cycle before left them. */
    ghost predicate Loaded(t: nat)
      requires Shape() && t > 0
      reads pe, result, emitRow
    {
      && (forall i, j :: 0 <= i < n && 0 <= j < n ==> ArrivedAt(i, j, t))
      && (forall i, j :: 0 <= i < n && 0 <= j < n ==> PriorSumAt(i, j, t))
      && Results(t - 1)
    }

    ghost predicate PriorSumAt(i: nat, j: nat, t: nat)
      requires Shape() && i < n && j < n && t > 0
      reads pe
    {
      i < n - 1 ==> SumAt(i, j, t - 1)
    }

    ghost predicate ArrivedAt(i: nat, j: nat, t: nat)
      requires Shape() && i < n && j < n
      reads pe
    {
      var row := t - 1 - i - j;
      Clean(j, t) ==> if 0 <= row < n then pe[i, j].inReg == Valid8(true, Entry(a, row, i)) else !pe[i, j].inReg.valid
    }

    /** What the element's multiply-accumulate will yield. */
    function NextSum(i: nat, j: nat): Valid16
      requires Shape() && i < n && j < n
      reads pe
    {
      Mac(pe[i, j], if i > 0 then pe[i - 1, j].fwdPsum else Valid16(false, 0))
    }

    ghost predicate SumDue(i: nat, j: nat, t: nat)
      requires Shape() && i < n && j < n
      reads pe
    {
      var row := t - 1 - i - j;
      Clean(j, t) ==>
        if 0 <= row < n then NextSum(i, j) == Valid16(true, Dot(a, b, row, j, 0, i + 1) % 0x1_0000)
        else !NextSum(i, j).valid
    }

    /** Where a row of A is at hand, the element adds its product to the sum from above. */
    lemma MacIsDot(i: nat, j: nat, t: nat)
      requires Shape() && Preloaded(n) && t > 0 && Loaded(t) && i < n && j < n
      ensures SumDue(i, j, t)
    {
      hide Mac, Entry;
      var row := t - 1 - i - j;
      assert ArrivedAt(i, j, t);
      if Clean(j, t) {
        if 0 <= row < n {
          if i > 0 { assert PriorSumAt(i - 1, j, t); }
          MacAdds(pe[i, j], if i > 0 then pe[i - 1, j].fwdPsum else Valid16(false, 0),
                  Dot(a, b, row, j, 0, i), Entry(a, row, i), Entry(b, i, j));
        } else {
          MacRests(pe[i, j], if i > 0 then pe[i - 1, j].fwdPsum else Valid16(false, 0));
        }
      }
    }

    /** The cycle that ends at `t` has computed and forwarded everything but not yet emitted. */
    ghost predicate Computed(t: nat)
      requires Shape() && t > 0
      reads pe, result, emitRow
    {
      && (forall i, j :: 0 <= i < n && 0 <= j < n ==> InputAt(i, j, t) && SumAt(i, j, t))
      && (forall i, j :: 0 <= i < n && 0 <= j < n ==> pe[i, j].psumReg == pe[i, j].fwdPsum)
      && Results(t - 1)
    }

    /** Steps 2 and 3. */
    method Compute(ghost t: nat)
      requires Shape() && Preloaded(n) && t > 0 && Loaded(t)
      modifies pe
      ensures Preloaded(n) && Computed(t)
    {
      forall i, j | 0 <= i < n && 0 <= j < n
        ensures SumDue(i, j, t)
      {
        MacIsDot(i, j, t);
      }
      hide Mac, Dot, Emitted, Entry;
      label Before:
      MultiplyAccumulate();
      label Between:
      Forward();
      forall i, j | 0 <= i < n && 0 <= j < n
        ensures InputAt(i, j, t) && SumAt(i, j, t)
      {
        assert old@Before(ArrivedAt(i, j, t) && SumDue(i, j, t));
        assert pe[i, j].fwdIn == old@Between(pe[i, j]).inReg == old@Before(pe[i, j]).inReg;
        assert pe[i, j].fwdPsum == old@Between(pe[i, j]).psumReg == old@Before(NextSum(i, j));
      }
    }

    /** Step 4. */
    method EmitResults(ghost t: nat)
      requires Shape() && n > 0 && Preloaded(n) && t > 0 && Computed(t)
      modifies pe, result, emitRow
      ensures Preloaded(n) && Wavefront(t)
    {
      forall j | 0 <= j < n
        ensures Emits(j) <==> 0 <= t - n - j < n
        ensures Emits(j) ==>
                  pe[n - 1, j].psumReg.sum == Dot(a, b, t - n - j, j, 0, n) % 0x1_0000 && emitRow[j] == t - n - j
      {
        assert SumAt(n - 1, j, t);
      }
      hide Dot;
      label Before:
      Emit();
      forall i, j | 0 <= i < n && 0 <= j < n
        ensures InputAt(i, j, t)
        ensures i < n - 1 ==> SumAt(i, j, t)
      {
        assert old@Before(InputAt(i, j, t) && SumAt(i, j, t));
      }
    }

    /** Steps 2 to 4. */
    method CompleteCycle(ghost t: nat)
      requires Shape() && n > 0 && Preloaded(n) && t > 0 && Loaded(t)
      modifies pe, result, emitRow
      ensures Preloaded(n) && Wavefront(t)
    {
      Compute(t);
      EmitResults(t);
    }

    /** One propagate cycle. */
    method PropagateAndMac(cycle: nat)
      requires Shape() && n > 0 && Preloaded(n) && Wavefront(cycle)
      modifies pe, result, emitRow
      ensures Preloaded(n) && Wavefront(cycle + 1)
    {
      label Before:
      InjectA(cycle);
      ArrivalsFromLeft@Before(cycle + 1);
      CompleteCycle(cycle + 1);
    }

    /** One flush cycle, whatever enters from outside the grid. */
    method FlushAndEmit(cycle: nat, outside: seq<Valid8>)
      requires Shape() && n > 0 && Preloaded(n) && Wavefront(2 * n - 1 + cycle) && |outside| == n
      modifies pe, result, emitRow
      ensures Preloaded(n) && Wavefront(2 * n + cycle)
    {
      label Before:
      ShiftIn(outside);
      ArrivalsFromLeft@Before(2 * n + cycle);
      CompleteCycle(2 * n + cycle);
    }

    /** A shift to the right loads every column but the first with what is due there. */
    twostate lemma ArrivalsFromLeft(t: nat)
      requires Shape() && t > 0 && old(Wavefront(t - 1)) && old(Preloaded(n))
      requires unchanged(result) && unchanged(emitRow)
      requires forall i, j :: 0 <= i < n && 0 <= j < n ==>
                 pe[i, j] == old(pe[i, j]).(inReg := if j == 0 then pe[i, 0].inReg else old(pe[i, j - 1]).fwdIn)
      requires forall i :: 0 <= i < n ==> ArrivedAt(i, 0, t)
      ensures Preloaded(n) && Loaded(t)
    {
      forall i, j | 0 <= i < n && 0 <= j < n
        ensures ArrivedAt(i, j, t)
      {
        if j > 0 { assert old(InputAt(i, j - 1, t - 1)); }
      }
      forall i, j | 0 <= i < n && 0 <= j < n
        ensures PriorSumAt(i, j, t)
      {
        assert i < n - 1 ==> old(SumAt(i, j, t - 1));
      }
    }
  }
}
