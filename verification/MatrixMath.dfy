/** Sums of products over 8-bit matrices and their 16-bit accumulation. */
module MatrixMath {
  import opened Words

  type Half = x: int | 0 <= x < 0x1_0000

  /** Rows of a matrix; entries beyond its stored part are read as zero. */
  type Matrix = seq<seq<Byte>>

  function Entry(m: Matrix, i: nat, j: nat): Byte {
    if i < |m| && j < |m[i]| then m[i][j] else 0
  }

  /** The exact inner product of row `r` of `a` with column `c` of `b` over the terms lo..hi. */
  function Dot(a: Matrix, b: Matrix, r: nat, c: nat, lo: nat, hi: nat): nat {
    if lo >= hi then 0
    else
      ProductIsNat(Entry(a, r, hi - 1), Entry(b, hi - 1, c));
      Dot(a, b, r, c, lo, hi - 1) + Entry(a, r, hi - 1) * Entry(b, hi - 1, c)
  }

  lemma ProductIsNat(x: Byte, y: Byte)
    ensures 0 <= x * y <= 255 * 255
  {}

  /** Addition of two 16-bit values, as the accumulators do it. */
  function Add16(x: int, y: int): Half { (x + y) % 0x1_0000 }

  lemma Accumulate(x: int, y: int)
    ensures Add16(x % 0x1_0000, y) == (x + y) % 0x1_0000
    ensures Add16(x % 0x1_0000, y % 0x1_0000) == (x + y) % 0x1_0000
  {}

  lemma {:induction false} DotSplits(a: Matrix, b: Matrix, r: nat, c: nat, lo: nat, mid: nat, hi: nat)
    requires lo <= mid <= hi
    ensures Dot(a, b, r, c, lo, hi) == Dot(a, b, r, c, lo, mid) + Dot(a, b, r, c, mid, hi)
  {
    if mid < hi { DotSplits(a, b, r, c, lo, mid, hi - 1); }
  }

  /** Terms beyond the stored rows of `b` or columns of `a` add nothing. */
  lemma {:induction false} DotBeyond(a: Matrix, b: Matrix, r: nat, c: nat, lo: nat, hi: nat)
    requires forall k: nat :: lo <= k < hi ==> Entry(a, r, k) == 0 || Entry(b, k, c) == 0
    ensures Dot(a, b, r, c, lo, hi) == 0
  {
    if lo < hi {
      DotBeyond(a, b, r, c, lo, hi - 1);
      assert Entry(a, r, hi - 1) == 0 || Entry(b, hi - 1, c) == 0;
    }
  }
}
