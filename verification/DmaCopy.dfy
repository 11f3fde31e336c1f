/** What a transfer does to memory, byte by byte, in whatever order its writes land. */
module DmaCopy {
  import opened Words
  import opened DmaModel
  import opened DmaProof
  import opened DmaRuns

  /** A byte memory; a bus address is the index of a byte. */
  type Bytes = int -> Byte

  // ---- Words in memory, little end first ----

  function FourBytes(a: int, b: int, c: int, d: int): Word
    requires 0 <= a < 0x100 && 0 <= b < 0x100 && 0 <= c < 0x100 && 0 <= d < 0x100
  {
    a + 0x100 * b + 0x1_0000 * c + 0x100_0000 * d
  }

  function WordAt(m: Bytes, addr: int): Word {
    FourBytes(m(addr), m(addr + 1), m(addr + 2), m(addr + 3))
  }

  function ByteOf(w: Word, k: int): Byte
    requires 0 <= k < 4
  {
    (if k == 0 then w else if k == 1 then w / 0x100 else if k == 2 then w / 0x1_0000 else w / 0x100_0000) % 0x100
  }

  lemma ByteOfWord(m: Bytes, addr: int, k: int)
    requires 0 <= k < 4
    ensures ByteOf(WordAt(m, addr), k) == m(addr + k)
  {
    Digits(m(addr), m(addr + 1), m(addr + 2), m(addr + 3));
  }

  lemma Digits(a: Byte, b: Byte, c: Byte, d: Byte)
    ensures var w := a + 0x100 * b + 0x1_0000 * c + 0x100_0000 * d;
            w % 0x100 == a && w / 0x100 % 0x100 == b && w / 0x1_0000 % 0x100 == c && w / 0x100_0000 % 0x100 == d
  {
    var w := a + 0x100 * b + 0x1_0000 * c + 0x100_0000 * d;
    assert w / 0x100 == b + 0x100 * c + 0x1_0000 * d;
    assert w / 0x1_0000 == c + 0x100 * d;
  }

  predicate Covers(w: WriteReq, x: int) { w.addr <= x < w.addr + 4 }

  /** The byte at `x` after the word writes `ws` have landed one after the other. */
  function ByteAfter(m: Bytes, ws: seq<WriteReq>, x: int): Byte {
    if ws == [] then m(x)
    else
      var w := ws[|ws| - 1];
      if Covers(w, x) then ByteOf(w.data, x - w.addr) else ByteAfter(m, ws[..|ws| - 1], x)
  }

  /** The last write over `x` decides it. */
  lemma {:induction false} LastDecides(m: Bytes, ws: seq<WriteReq>, x: int, i: nat)
    requires i < |ws| && Covers(ws[i], x) && forall j :: i < j < |ws| ==> !Covers(ws[j], x)
    ensures ByteAfter(m, ws, x) == ByteOf(ws[i].data, x - ws[i].addr)
  {
    if i < |ws| - 1 { LastDecides(m, ws[..|ws| - 1], x, i); }
  }

  lemma {:induction false} Untouched(m: Bytes, ws: seq<WriteReq>, x: int)
    requires forall j :: 0 <= j < |ws| ==> !Covers(ws[j], x)
    ensures ByteAfter(m, ws, x) == m(x)
  {
    if ws != [] { Untouched(m, ws[..|ws| - 1], x); }
  }

  /** When all writes over `x` would put the same byte there, the order does not matter. */
  lemma {:induction false} AllAgree(m: Bytes, ws: seq<WriteReq>, x: int, v: Byte)
    requires exists j :: 0 <= j < |ws| && Covers(ws[j], x)
    requires forall j :: 0 <= j < |ws| && Covers(ws[j], x) ==> ByteOf(ws[j].data, x - ws[j].addr) == v
    ensures ByteAfter(m, ws, x) == v
  {
    if !Covers(ws[|ws| - 1], x) { AllAgree(m, ws[..|ws| - 1], x, v); }
  }

  // ---- The rows of a transfer ----

  /** The rows fit in the address space at both ends, rounded up to whole words. */
  predicate Fits(cfg: Config) {
    && cfg.Valid()
    && cfg.src + (cfg.height - 1) * cfg.srcStride + 4 * cfg.WordsPerRow() <= WORDS
    && cfg.dst + (cfg.height - 1) * cfg.dstStride + 4 * cfg.WordsPerRow() <= WORDS
  }

  /** `x` is byte `b` of row `r` of an area with the given start and row pitch. */
  predicate IsAt(x: int, start: int, stride: nat, r: nat, b: nat) { x == start + r * stride + b }

  lemma Monotone(a: nat, b: nat, k: nat)
    requires a <= b
    ensures a * k <= b * k
  {}

  lemma Split(g: nat, n: nat, h: nat)
    requires n > 0 && g < n * h
    ensures g / n < h && g % n < n && g == n * (g / n) + g % n
  {
    if g / n >= h { Monotone(h, g / n, n); }
  }

  lemma Join(r: nat, c: nat, n: nat, h: nat)
    requires c < n && r < h
    ensures n * r + c < n * h && (n * r + c) / n == r && (n * r + c) % n == c
  {
    Monotone(r + 1, h, n);
    var g := n * r + c;
    assert g == n * (g / n) + g % n;
    Unique(n, g / n, g % n, r, c);
  }

  lemma Unique(n: nat, q: nat, s: nat, r: nat, c: nat)
    requires n > 0 && s < n && c < n && n * q + s == n * r + c
    ensures q == r && s == c
  {
    if q < r { Monotone(q + 1, r, n); }
    if r < q { Monotone(r + 1, q, n); }
  }

  /** Where word `g` is read and written when nothing wraps. */
  lemma Addresses(cfg: Config, g: nat)
    requires Fits(cfg) && g < cfg.TotalWords()
    ensures cfg.WordsPerRow() > 0 && cfg.Row(g) < cfg.height && cfg.Col(g) < cfg.WordsPerRow()
    ensures cfg.SrcAddr(g) == cfg.src + cfg.Row(g) * cfg.srcStride + 4 * cfg.Col(g) <= WORDS - 4
    ensures cfg.DstAddr(g) == cfg.dst + cfg.Row(g) * cfg.dstStride + 4 * cfg.Col(g) <= WORDS - 4
  {
    WordCount(cfg);
    Split(g, cfg.WordsPerRow(), cfg.height);
    RowFits(cfg.src, cfg.Row(g), cfg.height, cfg.srcStride, cfg.Col(g), cfg.WordsPerRow());
    RowFits(cfg.dst, cfg.Row(g), cfg.height, cfg.dstStride, cfg.Col(g), cfg.WordsPerRow());
  }

  lemma RowFits(start: nat, r: nat, h: nat, stride: nat, c: nat, n: nat)
    requires r < h && c < n && start + (h - 1) * stride + 4 * n <= WORDS
    ensures 0 <= start + r * stride + c * 4 <= WORDS - 4
    ensures (start + r * stride + c * 4) % WORDS == start + r * stride + 4 * c
  {
    Monotone(r, h - 1, stride);
    Monotone(0, r, stride);
    InRange(start + r * stride + c * 4);
  }

  lemma InRange(x: nat)
    requires x < WORDS
    ensures x % WORDS == x
  {}

  /** The word of row `r`, column `c`. */
  lemma WordIndex(cfg: Config, r: nat, c: nat) returns (g: nat)
    requires cfg.Valid() && r < cfg.height && c < cfg.WordsPerRow()
    ensures g < cfg.TotalWords() && cfg.Row(g) == r && cfg.Col(g) == c
  {
    WordCount(cfg);
    Join(r, c, cfg.WordsPerRow(), cfg.height);
    g := cfg.WordsPerRow() * r + c;
  }

  // ---- The bytes of a transfer ----

  /** The data memory as a source of words. */
  function Reads(mem: Bytes): Source { (a: Word) => WordAt(mem, a) }

  function Writes(cfg: Config, mem: Bytes): seq<WriteReq>
    requires cfg.Valid()
  {
    Transfer(cfg, Reads(mem), cfg.TotalWords())
  }

  /** Every byte that word `g` puts somewhere comes from the matching place of the source. */
  lemma WordMoves(cfg: Config, mem: Bytes, g: nat, x: int)
    requires Fits(cfg) && g < cfg.TotalWords() && Covers(Writes(cfg, mem)[g], x)
    ensures cfg.WordsPerRow() > 0 && cfg.Row(g) < cfg.height
    ensures exists k :: 0 <= k < 4 && Covered(cfg, mem, g, x, k)
  {
    WordCount(cfg);
    Addresses(cfg, g);
    var k := x - cfg.DstAddr(g);
    ByteOfWord(mem, cfg.SrcAddr(g), k);
    assert Covered(cfg, mem, g, x, k);
  }

  /** `x` is byte `k` of word `g` at the destination, and the write puts the source's byte there. */
  predicate Covered(cfg: Config, mem: Bytes, g: nat, x: int, k: int)
    requires Fits(cfg) && g < cfg.TotalWords() && cfg.WordsPerRow() > 0 && 0 <= k < 4
  {
    && cfg.Col(g) < cfg.WordsPerRow()
    && x == cfg.dst + cfg.Row(g) * cfg.dstStride + (4 * cfg.Col(g) + k)
    && var w := Writes(cfg, mem)[g];
       0 <= x - w.addr < 4 && ByteOf(w.data, x - w.addr) ==
         mem(cfg.src + cfg.Row(g) * cfg.srcStride + (4 * cfg.Col(g) + k))
  }

  /** Rows of whole words do not overlap at the destination, or both ends have the same shape. */
  predicate OrderFree(cfg: Config) {
    cfg.height == 1 || cfg.dstStride >= 4 * cfg.WordsPerRow() || cfg.srcStride == cfg.dstStride
  }

  /** Two positions of the padded rows that are the same destination byte read the same source byte. */
  lemma SamePlace(cfg: Config, r: nat, b: nat, q: nat, e: nat)
    requires cfg.Valid() && OrderFree(cfg) && r < cfg.height && q < cfg.height && b < 4 * cfg.WordsPerRow()
    requires e < 4 * cfg.WordsPerRow()
    requires r * cfg.dstStride + b == q * cfg.dstStride + e
    ensures r * cfg.srcStride + b == q * cfg.srcStride + e
  {
    if cfg.srcStride != cfg.dstStride && cfg.height != 1 { SameRow(cfg.dstStride, r, b, q, e); }
  }

  lemma SameRow(stride: nat, r: nat, b: nat, q: nat, e: nat)
    requires b < stride && e < stride && r * stride + b == q * stride + e
    ensures r == q && b == e
  {
    Unique(stride, r, b, q, e);
  }

  /** The words of a transfer have landed, in any order, any number of times, among other writes
      that leave byte `x` alone. */
  predicate LandedAt(cfg: Config, mem: Bytes, ws: seq<WriteReq>, x: int)
    requires cfg.Valid()
  {
    && (forall w :: w in Writes(cfg, mem) ==> w in ws)
    && (forall w :: w in ws && Covers(w, x) ==> w in Writes(cfg, mem))
  }

  /** Any-order copy: destination byte `b` of row `r` ends up as source byte `b` of row `r`. */
  lemma CopiedInAnyOrder(cfg: Config, mem: Bytes, was: Bytes, ws: seq<WriteReq>, r: nat, b: nat)
    requires Fits(cfg) && r < cfg.height && b < 4 * cfg.WordsPerRow()
    requires cfg.height == 1 || cfg.dstStride >= 4 * cfg.WordsPerRow() || cfg.srcStride == cfg.dstStride
    requires LandedAt(cfg, mem, ws, cfg.dst + r * cfg.dstStride + b)
    ensures ByteAfter(was, ws, cfg.dst + r * cfg.dstStride + b) == mem(cfg.src + r * cfg.srcStride + b)
  {
    hide WordAt, ByteOf, ByteAfter;
    var x, v := cfg.dst + r * cfg.dstStride + b, mem(cfg.src + r * cfg.srcStride + b);
    var g := WordIndex(cfg, r, b / 4);
    Addresses(cfg, g);
    var w := Writes(cfg, mem)[g];
    assert Covers(w, x) && w in ws;
    forall j | 0 <= j < |ws| && Covers(ws[j], x)
      ensures ByteOf(ws[j].data, x - ws[j].addr) == v
    {
      CoversAgree(cfg, mem, ws[j], r, b);
    }
    AllAgree(was, ws, x, v);
  }

  /** Whatever word of the transfer covers a byte puts the right one there. */
  lemma CoversAgree(cfg: Config, mem: Bytes, w: WriteReq, r: nat, b: nat)
    requires Fits(cfg) && OrderFree(cfg) && r < cfg.height && b < 4 * cfg.WordsPerRow()
    requires w in Writes(cfg, mem) && Covers(w, cfg.dst + r * cfg.dstStride + b)
    ensures ByteOf(w.data, cfg.dst + r * cfg.dstStride + b - w.addr) == mem(cfg.src + r * cfg.srcStride + b)
  {
    hide WordAt, ByteOf;
    var x := cfg.dst + r * cfg.dstStride + b;
    var h :| 0 <= h < cfg.TotalWords() && Writes(cfg, mem)[h] == w;
    WordMoves(cfg, mem, h, x);
    var k :| 0 <= k < 4 && Covered(cfg, mem, h, x, k);
    hide Writes, OrderFree, Fits, Config.Valid, Config.Row, Config.Col, Config.WordsPerRow, Config.TotalWords;
    SamePlace(cfg, r, b, cfg.Row(h), 4 * cfg.Col(h) + k);
  }

  /** In issue order the rows need only be disjoint in their bytes: the padding a row leaves in the
      next one is overwritten by it. */
  lemma CopiedInOrder(cfg: Config, mem: Bytes, was: Bytes, r: nat, b: nat)
    requires Fits(cfg) && cfg.dstStride >= cfg.width && r < cfg.height && b < cfg.width
    ensures ByteAfter(was, Writes(cfg, mem), cfg.dst + r * cfg.dstStride + b) == mem(cfg.src + r * cfg.srcStride + b)
  {
    hide WordAt, ByteOf, ByteAfter;
    hide Config.DstAddr, Config.SrcAddr;
    var x, ws := cfg.dst + r * cfg.dstStride + b, Writes(cfg, mem);
    var g := WordIndex(cfg, r, b / 4);
    Addresses(cfg, g);
    assert Covers(ws[g], x);
    forall j | g < j < |ws|
      ensures !Covers(ws[j], x)
    {
      LaterPlace(cfg, g, j, b);
    }
    LastDecides(was, ws, x, g);
    WordMoves(cfg, mem, g, x);
  }

  /** A later word starts beyond every byte of the row's width that an earlier word holds. */
  lemma LaterPlace(cfg: Config, g: nat, j: nat, b: nat)
    requires Fits(cfg) && cfg.dstStride >= cfg.width && g < j < cfg.TotalWords() && cfg.WordsPerRow() > 0
    requires b < cfg.width && b / 4 == cfg.Col(g)
    ensures cfg.DstAddr(j) > cfg.dst + cfg.Row(g) * cfg.dstStride + b
  {
    WordCount(cfg);
    Addresses(cfg, g);
    Addresses(cfg, j);
    Split(g, cfg.WordsPerRow(), cfg.height);
    Split(j, cfg.WordsPerRow(), cfg.height);
    var q, s, t, u := cfg.Row(g), cfg.Col(g), cfg.Row(j), cfg.Col(j);
    hide *;
    LaterWord(cfg.WordsPerRow(), q, s, t, u);
    LaterRow(q, s, t, u, cfg.dstStride, b);
  }

  lemma LaterRow(q: nat, s: nat, t: nat, u: nat, stride: nat, b: nat)
    requires (q < t && b < stride) || (q == t && b / 4 < u)
    ensures t * stride + 4 * u > q * stride + b
  {
    if q < t { Monotone(q + 1, t, stride); }
  }

  lemma LaterWord(n: nat, q: nat, s: nat, t: nat, u: nat)
    requires s < n && u < n && n * q + s < n * t + u
    ensures q < t || (q == t && s < u)
  {
    if t < q { Monotone(t + 1, q, n); assert false; }
  }

  // ---- Which bytes are touched ----

  predicate Touched(cfg: Config, mem: Bytes, x: int)
    requires cfg.Valid()
  {
    exists w :: w in Writes(cfg, mem) && Covers(w, x)
  }

  /** Byte `x` is in one of the rows of `width` bytes from `start`. */
  ghost predicate InRows(x: int, start: int, stride: nat, height: nat, width: nat) {
    exists r: nat, b: nat :: r < height && b < width && IsAt(x, start, stride, r, b)
  }

  /** Rounding rows up to words: exactly the padded rows are touched. */
  lemma TouchesPaddedRows(cfg: Config, mem: Bytes, x: int)
    requires Fits(cfg)
    ensures Touched(cfg, mem, x) <==> InRows(x, cfg.dst, cfg.dstStride, cfg.height, 4 * cfg.WordsPerRow())
  {
    hide WordAt, ByteOf;
    if Touched(cfg, mem, x) {
      var w :| w in Writes(cfg, mem) && Covers(w, x);
      var g :| 0 <= g < cfg.TotalWords() && Writes(cfg, mem)[g] == w;
      WordMoves(cfg, mem, g, x);
      var k :| 0 <= k < 4 && Covered(cfg, mem, g, x, k);
      assert IsAt(x, cfg.dst, cfg.dstStride, cfg.Row(g), 4 * cfg.Col(g) + k);
    }
    if InRows(x, cfg.dst, cfg.dstStride, cfg.height, 4 * cfg.WordsPerRow()) {
      var r: nat, b: nat :| r < cfg.height && b < 4 * cfg.WordsPerRow() && IsAt(x, cfg.dst, cfg.dstStride, r, b);
      var g := WordIndex(cfg, r, b / 4);
      Addresses(cfg, g);
      assert Covers(Writes(cfg, mem)[g], x);
    }
  }

  /** Nothing outside the destination rectangle is touched if and only if the width is a whole
      number of words. */
  lemma StaysInsideExactly(cfg: Config, mem: Bytes)
    requires Fits(cfg)
    ensures (forall x :: Touched(cfg, mem, x) ==> InRows(x, cfg.dst, cfg.dstStride, cfg.height, cfg.width)) <==>
              cfg.width % 4 == 0
  {
    hide WordAt, Writes, Touched;
    if cfg.width % 4 == 0 {
      forall x | Touched(cfg, mem, x)
        ensures InRows(x, cfg.dst, cfg.dstStride, cfg.height, cfg.width)
      {
        TouchesPaddedRows(cfg, mem, x);
      }
    } else {
      var x := cfg.dst + (cfg.height - 1) * cfg.dstStride + cfg.width;
      assert IsAt(x, cfg.dst, cfg.dstStride, cfg.height - 1, cfg.width);
      TouchesPaddedRows(cfg, mem, x);
      BeyondRows(x, cfg.dst, cfg.dstStride, cfg.height, cfg.width);
    }
  }

  lemma BeyondRows(x: int, start: int, stride: nat, height: nat, width: nat)
    requires height > 0 && x == start + (height - 1) * stride + width
    ensures !InRows(x, start, stride, height, width)
  {
    forall r: nat, b: nat | r < height && b < width
      ensures !IsAt(x, start, stride, r, b)
    {
      Monotone(r, height - 1, stride);
    }
  }

  // ---- Whole runs ----

  /** Everything issued since the engine was enabled has landed, in the order `landed`. */
  predicate AllLanded(rest: Dma, s: Dma, landed: seq<WriteReq>) {
    Earlier(rest) + multiset(landed) == multiset(WritesOf(s.sent)) + multiset(WritesOf(s.queue))
  }

  lemma LandedIsTransfer(mem: Bytes, rest: Dma, cfg: Config, first: bool, ss: seq<Dma>, steps: seq<Step>, i: nat,
                         landed: seq<WriteReq>)
    requires IsRun(Reads(mem), rest, cfg, first, ss, steps) && i < |ss| && ss[i].done && AllLanded(rest, ss[i], landed)
    ensures multiset(landed) == multiset(Writes(cfg, mem))
    ensures forall w :: w in landed <==> w in Writes(cfg, mem)
  {
    hide WritesOf, Transfer, Linked;
    IssuesTheTransfer(Reads(mem), rest, cfg, first, ss, steps, i);
    Cancel(Earlier(rest), multiset(landed), multiset(Writes(cfg, mem)));
    forall w
      ensures w in landed <==> w in Writes(cfg, mem)
    {
      assert w in landed <==> w in multiset(landed);
      assert w in Writes(cfg, mem) <==> w in multiset(Writes(cfg, mem));
    }
  }

  lemma Cancel(b: multiset<WriteReq>, x: multiset<WriteReq>, y: multiset<WriteReq>)
    requires b + x == b + y
    ensures x == y
  {
    forall w ensures x[w] == y[w] {
      assert (b + x)[w] == (b + y)[w];
    }
  }

  /** The DMA engine copies: when it is done and its writes have landed, in whatever order, byte `b`
      of destination row `r` is byte `b` of source row `r`, rows being rounded up to whole words, and
      every byte outside those rows is what it was. */
  lemma RunCopies(mem: Bytes, rest: Dma, cfg: Config, first: bool, ss: seq<Dma>, steps: seq<Step>, i: nat, was: Bytes,
                  landed: seq<WriteReq>, x: int)
    requires IsRun(Reads(mem), rest, cfg, first, ss, steps) && i < |ss| && ss[i].done && AllLanded(rest, ss[i], landed)
    requires Fits(cfg) && OrderFree(cfg)
    ensures forall r: nat, b: nat ::
              r < cfg.height && b < 4 * cfg.WordsPerRow() && IsAt(x, cfg.dst, cfg.dstStride, r, b) ==>
              ByteAfter(was, landed, x) == mem(cfg.src + r * cfg.srcStride + b)
    ensures !InRows(x, cfg.dst, cfg.dstStride, cfg.height, 4 * cfg.WordsPerRow()) ==>
              ByteAfter(was, landed, x) == was(x)
  {
    hide IsRun, ByteAfter, Writes, AllLanded, Touched;
    LandedIsTransfer(mem, rest, cfg, first, ss, steps, i, landed);
    forall r: nat, b: nat | r < cfg.height && b < 4 * cfg.WordsPerRow() && IsAt(x, cfg.dst, cfg.dstStride, r, b)
      ensures ByteAfter(was, landed, x) == mem(cfg.src + r * cfg.srcStride + b)
    {
      CopiedInAnyOrder(cfg, mem, was, landed, r, b);
    }
    if !InRows(x, cfg.dst, cfg.dstStride, cfg.height, 4 * cfg.WordsPerRow()) {
      TouchesPaddedRows(cfg, mem, x);
      NotTouched(cfg, mem, x, landed);
      Untouched(was, landed, x);
    }
  }

  lemma NotTouched(cfg: Config, mem: Bytes, x: int, landed: seq<WriteReq>)
    requires cfg.Valid() && !Touched(cfg, mem, x) && forall w :: w in landed <==> w in Writes(cfg, mem)
    ensures forall j :: 0 <= j < |landed| ==> !Covers(landed[j], x)
  {
    hide Writes;
    forall j | 0 <= j < |landed|
      ensures !Covers(landed[j], x)
    {
      assert landed[j] in landed;
    }
  }

  lemma WritesAt(cfg: Config, mem: Bytes, g: nat)
    requires cfg.Valid() && g < cfg.TotalWords() && cfg.WordsPerRow() > 0
    ensures |Writes(cfg, mem)| == cfg.TotalWords()
    ensures Writes(cfg, mem)[g] == WriteReq(cfg.DstAddr(g), WordAt(mem, cfg.SrcAddr(g)))
  {}
}
