/** Exactly when the order in which bursts land does not matter. The beats of one burst run in order;
    those of different bursts in any. */
module DmaOrder {
  import opened Words
  import opened DmaModel
  import opened DmaProof
  import opened DmaRuns
  import opened DmaCopy
  import opened DmaDone

  // ---- Bursts ----

  /** The burst, counted from the start of the transfer, that word `g` of `total` is in: four words
      each, but a tail of three goes as two and one. */
  function BurstOf(total: nat, g: nat): nat { if total % 4 == 3 && g == total - 1 then g / 4 + 1 else g / 4 }

  /** Word `g` is the first of its burst. */
  predicate StartsBurst(total: nat, g: nat) { g % 4 == 0 || (total % 4 == 3 && g == total - 1) }

  lemma BurstsInOrder(total: nat, g: nat, h: nat)
    requires g <= h < total
    ensures BurstOf(total, g) <= BurstOf(total, h)
    ensures g < h && StartsBurst(total, h) ==> BurstOf(total, g) < BurstOf(total, h)
  {}

  /** Words one after the other with no start of a burst among them are in one burst. */
  lemma {:induction false} SameBurst(total: nat, g: nat, h: nat)
    requires g <= h < total && forall k :: g < k <= h ==> !StartsBurst(total, k)
    ensures BurstOf(total, g) == BurstOf(total, h)
  {
    if g < h {
      SameBurst(total, g, h - 1);
      assert !StartsBurst(total, h);
    }
  }

  /** First word and number of words of burst `j` out of `n` words. */
  function First(n: nat, j: nat): nat { if n % 4 == 3 && j == n / 4 + 1 then n - 1 else 4 * j }

  function Length(n: nat, j: nat): nat {
    if 4 * j + 4 <= n then 4 else if n % 4 == 3 then (if j == n / 4 then 2 else 1) else n % 4
  }

  /** The bursts follow each other. */
  lemma NextBurst(n: nat, j: nat)
    requires First(n, j) < n
    ensures Length(n, j) == WriteChunk(n - First(n, j)) && First(n, j) + Length(n, j) <= n
    ensures First(n, j) + Length(n, j) < n ==> First(n, j + 1) == First(n, j) + Length(n, j)
  {}

  /** The packets of a write phase are these bursts of its words, in order. */
  lemma {:induction false} PacketsAreBursts(s: Dma, j: nat, i: nat)
    requires Shape(s) && First(s.bufferIndex, j) < s.bufferIndex <= CAPACITY
    requires i < |WritePackets(s, First(s.bufferIndex, j))|
    ensures var f := First(s.bufferIndex, j + i);
            && f < s.bufferIndex && f + Length(s.bufferIndex, j + i) <= s.bufferIndex
            && WritePackets(s, First(s.bufferIndex, j))[i] ==
               WriteBurst(WriteRequests(s, f, Length(s.bufferIndex, j + i)))
    decreases i
  {
    hide First, Length, WriteChunk, WriteRequests;
    var n, at := s.bufferIndex, First(s.bufferIndex, j);
    NextBurst(n, j);
    var next := WritePackets(s, at + Length(n, j));
    assert WritePackets(s, at) == [WriteBurst(WriteRequests(s, at, Length(n, j)))] + next;
    if i > 0 {
      PacketsAreBursts(s, j + 1, i - 1);
    }
  }

  /** Word `k` of packet `i` of a write phase is word `g` of the transfer, and its burst is the phase's
      i-th: two words of a transfer are in one packet exactly if they are in one burst. */
  lemma PacketHolds(m: Source, s: Dma, i: nat, k: nat) returns (g: nat)
    requires Invariant(m, s) && Aligned(s) && s.job == WriteJob && i < |WritePackets(s, 0)|
    requires WritePackets(s, 0)[i].WriteBurst? && k < |WritePackets(s, 0)[i].stores|
    ensures s.transferred <= g < s.toBuffer <= s.cfg.TotalWords()
    ensures WritePackets(s, 0)[i].stores[k] == Transfer(s.cfg, m, s.cfg.TotalWords())[g]
    ensures BurstOf(s.cfg.TotalWords(), g) == s.transferred / 4 + i
  {
    hide Invariant, WritePackets, Length, BurstOf, Transfer;
    PhaseShape(m, s);
    var n := s.bufferIndex;
    PacketsAreBursts(s, 0, i);
    var f := First(n, i);
    g := s.transferred + f + k;
    BurstInPhase(s.cfg.TotalWords(), s.transferred, n, i, k);
    Buffers(m, s, f + k);
  }

  lemma PhaseShape(m: Source, s: Dma)
    requires Invariant(m, s) && Aligned(s) && s.job == WriteJob
    ensures Shape(s) && 0 < s.bufferIndex <= CAPACITY && s.transferred % CAPACITY == 0
    ensures s.toBuffer == s.transferred + s.bufferIndex <= s.cfg.TotalWords()
    ensures s.bufferIndex == CAPACITY || s.transferred + s.bufferIndex == s.cfg.TotalWords()
  {
    hide Transfer;
  }

  lemma Buffers(m: Source, s: Dma, k: nat)
    requires Invariant(m, s) && s.job == WriteJob && k < s.bufferIndex
    ensures s.transferred + k < s.cfg.TotalWords() && s.cfg.Valid() && s.cfg.WordsPerRow() > 0 && k < |s.buffer|
    ensures WriteReq(s.cfg.DstAddr(s.transferred + k), s.buffer[k]) ==
            Transfer(s.cfg, m, s.cfg.TotalWords())[s.transferred + k]
  {
    WordCount(s.cfg);
  }

  lemma BurstInPhase(total: nat, t: nat, n: nat, i: nat, k: nat)
    requires t % CAPACITY == 0 && 0 < n <= CAPACITY && t + n <= total && (n == CAPACITY || t + n == total)
    requires First(n, i) < n && First(n, i) + Length(n, i) <= n && k < Length(n, i)
    ensures BurstOf(total, t + First(n, i) + k) == t / 4 + i
  {
    var q := t / CAPACITY;
    assert t == CAPACITY * q;
    if n % 4 == 3 && i == n / 4 + 1 {
      LastWordOf(q, n);
    } else {
      InBurst(total, q, n, i, k);
    }
  }

  /** The single word of a tail of three. */
  lemma LastWordOf(q: nat, n: nat)
    requires n % 4 == 3 && n < CAPACITY
    ensures BurstOf(CAPACITY * q + n, CAPACITY * q + (n - 1)) == CAPACITY * q / 4 + (n / 4 + 1)
  {
    FourthOf(q, n - 1);
    RestOf(q, n);
  }

  lemma RestOf(q: nat, k: nat)
    ensures (CAPACITY * q + k) % 4 == k % 4
  {}

  lemma FourthOf(q: nat, k: nat)
    ensures (CAPACITY * q + k) / 4 == CAPACITY * q / 4 + k / 4 == 64 * q + k / 4
  {}

  lemma InBurst(total: nat, q: nat, n: nat, i: nat, k: nat)
    requires n <= CAPACITY && CAPACITY * q + n <= total && (n == CAPACITY || CAPACITY * q + n == total)
    requires 4 * i < n && 4 * i + k < n && k < 4 && (n % 4 == 3 ==> 4 * i + k < n - 1)
    ensures BurstOf(total, CAPACITY * q + 4 * i + k) == CAPACITY * q / 4 + i
  {
    FourthOf(q, 4 * i + k);
    assert (4 * i + k) / 4 == i;
  }

  // ---- Orders of landing ----

  /** `order` names each word of the transfer once, those of one burst in their order. */
  ghost predicate IsLanding(total: nat, order: seq<nat>) {
    && (forall t :: 0 <= t < |order| ==> order[t] < total)
    && (forall g: nat :: g < total ==> g in order)
    && (forall t, u :: 0 <= t < u < |order| ==> InOrder(total, order[t], order[u]))
  }

  /** `g` may land before `h`. */
  predicate InOrder(total: nat, g: nat, h: nat) { g != h && (BurstOf(total, g) == BurstOf(total, h) ==> g < h) }

  function Landed(ws: seq<WriteReq>, order: seq<nat>): seq<WriteReq>
    requires forall t :: 0 <= t < |order| ==> order[t] < |ws|
  {
    seq(|order|, t requires 0 <= t < |order| => ws[order[t]])
  }

  /** Byte `b` of row `r` is right after the words have landed in that order. */
  ghost predicate Right(cfg: Config, mem: Bytes, was: Bytes, order: seq<nat>, r: nat, b: nat)
    requires cfg.Valid() && IsLanding(cfg.TotalWords(), order)
  {
    ByteAfter(was, Landed(Writes(cfg, mem), order), cfg.dst + r * cfg.dstStride + b) ==
    mem(cfg.src + r * cfg.srcStride + b)
  }

  /** No row but the first begins with the first word of a burst. */
  predicate RowsShareBursts(cfg: Config) {
    forall r :: 1 <= r < cfg.height ==> !RowStartsBurst(cfg, r)
  }

  predicate RowStartsBurst(cfg: Config, r: nat) { StartsBurst(cfg.TotalWords(), r * cfg.WordsPerRow()) }

  // ---- When rows share bursts ----

  /** A word that covers a byte of the rectangle without holding it is an earlier one; if rows share
      bursts it is in the same burst. */
  lemma EarlierCover(cfg: Config, r: nat, b: nat, g: nat, h: nat)
    requires Fits(cfg) && cfg.dstStride >= cfg.width && RowsShareBursts(cfg) && r < cfg.height && b < cfg.width
    requires cfg.WordsPerRow() > 0 && g < cfg.TotalWords() && cfg.Row(g) == r && cfg.Col(g) == b / 4
    requires h < cfg.TotalWords() && h != g
    requires cfg.DstAddr(h) <= cfg.dst + r * cfg.dstStride + b < cfg.DstAddr(h) + 4
    ensures h < g && BurstOf(cfg.TotalWords(), h) == BurstOf(cfg.TotalWords(), g)
  {
    if h > g {
      LaterPlace(cfg, g, h, b);
      assert false;
    }
    WordCount(cfg);
    Addresses(cfg, h);
    var n, q, c := cfg.WordsPerRow(), cfg.Row(h), cfg.Col(h);
    IndexIs(cfg, g);
    IndexIs(cfg, h);
    RowWidth(cfg);
    CoverShape(n, cfg.dstStride, q, c, r, b);
    hide Fits, Config.TotalWords, Config.WordsPerRow, Config.Row, Config.Col, Config.DstAddr;
    forall k | h < k <= g
      ensures !StartsBurst(cfg.TotalWords(), k)
    {
      RowBetween(n, q, r, b, h, k);
      var row := if n == 1 then k else r;
      assert !RowStartsBurst(cfg, row);
    }
    SameBurst(cfg.TotalWords(), h, g);
  }

  lemma IndexIs(cfg: Config, g: nat)
    requires cfg.WordsPerRow() > 0
    ensures g == cfg.WordsPerRow() * cfg.Row(g) + cfg.Col(g) && cfg.Col(g) < cfg.WordsPerRow()
  {}

  lemma RowWidth(cfg: Config)
    requires cfg.Valid()
    ensures 4 * cfg.WordsPerRow() - 3 <= cfg.width <= 4 * cfg.WordsPerRow()
  {}

  /** Which words of earlier rows reach into a row's rectangle: the last of the row before, into the
      first word; or, where a row is one word, any. */
  lemma CoverShape(n: nat, stride: nat, q: nat, c: nat, r: nat, b: nat)
    requires stride >= 4 * n - 3 && c < n && b / 4 < n
    requires n * q + c < n * r + b / 4
    requires q * stride + 4 * c <= r * stride + b < q * stride + 4 * c + 4
    ensures q < r && (n == 1 || (q == r - 1 && c == n - 1 && b / 4 == 0))
  {
    LaterWord(n, q, c, r, b / 4);
    if q + 2 <= r {
      Monotone(q + 2, r, stride);
    } else if q + 1 == r {
      assert r * stride == q * stride + stride;
    }
  }

  /** The words between them: none but the row's first, or one for each row. */
  lemma RowBetween(n: nat, q: nat, r: nat, b: nat, h: nat, k: nat)
    requires q < r && (n == 1 || (q == r - 1 && b / 4 == 0))
    requires h < k && k <= n * r + b / 4 && h == n * q + (n - 1) && b / 4 < n
    ensures k == (if n == 1 then k else r) * n && 1 <= (if n == 1 then k else r) <= r
  {
    if n != 1 { assert n * r == n * q + n; }
  }

  lemma WritesLength(cfg: Config, mem: Bytes)
    requires cfg.Valid()
    ensures |Writes(cfg, mem)| == cfg.TotalWords()
  {}

  /** A word that lands after the one that holds a byte leaves it alone. */
  lemma LaterMisses(cfg: Config, order: seq<nat>, r: nat, b: nat, t: nat, u: nat)
    requires Fits(cfg) && cfg.dstStride >= cfg.width && RowsShareBursts(cfg) && r < cfg.height && b < cfg.width
    requires cfg.WordsPerRow() > 0 && t < u < |order| && order[t] < cfg.TotalWords() && order[u] < cfg.TotalWords()
    requires InOrder(cfg.TotalWords(), order[t], order[u])
    requires cfg.Row(order[t]) == r && cfg.Col(order[t]) == b / 4
    ensures !(cfg.DstAddr(order[u]) <= cfg.dst + r * cfg.dstStride + b < cfg.DstAddr(order[u]) + 4)
  {
    hide Fits, RowsShareBursts, Config.DstAddr, Config.TotalWords, Config.WordsPerRow, Config.Row, Config.Col, BurstOf;
    if cfg.DstAddr(order[u]) <= cfg.dst + r * cfg.dstStride + b < cfg.DstAddr(order[u]) + 4 {
      EarlierCover(cfg, r, b, order[t], order[u]);
    }
  }

  /** When rows share bursts the word that holds a byte is the last to land on it. */
  lemma SharedBurstsLand(cfg: Config, mem: Bytes, was: Bytes, order: seq<nat>, r: nat, b: nat)
    requires Fits(cfg) && cfg.dstStride >= cfg.width && RowsShareBursts(cfg)
    requires IsLanding(cfg.TotalWords(), order) && r < cfg.height && b < cfg.width
    ensures Right(cfg, mem, was, order, r, b)
  {
    hide Writes, ByteAfter, RowsShareBursts, InOrder, Config.TotalWords, Config.Row, Config.Col;
    RowWidth(cfg);
    WritesLength(cfg, mem);
    var g := WordIndex(cfg, r, b / 4);
    assert g in order;
    var t :| 0 <= t < |order| && order[t] == g;
    forall u | t < u < |order|
      ensures !Covers(Writes(cfg, mem)[order[u]], cfg.dst + r * cfg.dstStride + b)
    {
      assert InOrder(cfg.TotalWords(), order[t], order[u]);
      WritesAt(cfg, mem, order[u]);
      LaterMisses(cfg, order, r, b, t, u);
    }
    LandsLast(cfg, mem, was, order, r, b, t);
  }

  lemma LandsLast(cfg: Config, mem: Bytes, was: Bytes, order: seq<nat>, r: nat, b: nat, t: nat)
    requires Fits(cfg) && r < cfg.height && b < cfg.width && |Writes(cfg, mem)| == cfg.TotalWords() && t < |order|
    requires forall u :: 0 <= u < |order| ==> order[u] < cfg.TotalWords()
    requires cfg.WordsPerRow() > 0 && cfg.Row(order[t]) == r && cfg.Col(order[t]) == b / 4
    requires forall u :: t < u < |order| ==>
               !Covers(Writes(cfg, mem)[order[u]], cfg.dst + r * cfg.dstStride + b)
    ensures ByteAfter(was, Landed(Writes(cfg, mem), order), cfg.dst + r * cfg.dstStride + b) ==
            mem(cfg.src + r * cfg.srcStride + b)
  {
    hide WordAt, ByteOf, ByteAfter, Writes, Config.SrcAddr, Config.DstAddr, Config.TotalWords;
    var ws, g := Landed(Writes(cfg, mem), order), order[t];
    Addresses(cfg, g);
    WritesAt(cfg, mem, g);
    hide Config.Row, Config.Col, Fits;
    LastDecides(was, ws, cfg.dst + r * cfg.dstStride + b, t);
    ByteOfWord(mem, cfg.SrcAddr(g), b % 4);
  }

  /** Every order of landing leaves every byte right if the order is free. */
  lemma FreeOrderLands(cfg: Config, mem: Bytes, was: Bytes, order: seq<nat>, r: nat, b: nat)
    requires Fits(cfg) && OrderFree(cfg) && IsLanding(cfg.TotalWords(), order) && r < cfg.height && b < cfg.width
    ensures Right(cfg, mem, was, order, r, b)
  {
    hide ByteAfter, WordAt, Writes, InOrder, Config.TotalWords;
    WritesLength(cfg, mem);
    var all, ws := Writes(cfg, mem), Landed(Writes(cfg, mem), order);
    forall w | w in all
      ensures w in ws
    {
      var g: nat :| g < |all| && all[g] == w;
      assert g in order;
      var t :| 0 <= t < |order| && order[t] == g;
      assert ws[t] == w;
    }
    forall w | w in ws
      ensures w in all
    {
      var t :| 0 <= t < |ws| && ws[t] == w;
      assert all[order[t]] == w;
    }
    RowWidth(cfg);
    CopiedInAnyOrder(cfg, mem, was, ws, r, b);
  }

  // ---- Otherwise ----

  /** Word number `t` to land when words `a` to `g` land after all others. */
  function Postponed(total: nat, a: nat, g: nat, t: nat): nat
    requires a <= g <= total && t < total
  {
    if t < a then t else if t < a + (total - g) then g + (t - a) else t - (total - g)
  }

  function LateOrder(total: nat, a: nat, g: nat): seq<nat>
    requires a <= g <= total
  {
    seq(total, t requires 0 <= t < total => Postponed(total, a, g, t))
  }

  /** A burst may land last, after those that follow it. */
  lemma LateIsLanding(total: nat, a: nat, g: nat)
    requires a <= g < total && StartsBurst(total, g)
    ensures IsLanding(total, LateOrder(total, a, g))
  {
    var order := LateOrder(total, a, g);
    hide BurstOf, StartsBurst;
    forall h: nat | h < total
      ensures h in order
    {
      var t := if h < a then h else if h < g then h + (total - g) else h - (g - a);
      assert order[t] == h;
    }
    forall t, u | 0 <= t < u < |order|
      ensures InOrder(total, order[t], order[u])
    {
      if order[t] > order[u] {
        BurstsInOrder(total, order[u], g);
        BurstsInOrder(total, g, order[t]);
      }
    }
  }

  /** Where a row begins with a new burst and rows overlap with different strides, the burst before it
      landing last leaves the row's first byte wrong, for some source. */
  lemma LateBurstSpoils(cfg: Config, was: Bytes, r: nat) returns (mem: Bytes, order: seq<nat>)
    requires Fits(cfg) && cfg.width <= cfg.dstStride < 4 * cfg.WordsPerRow() && cfg.srcStride != cfg.dstStride
    requires 1 <= r < cfg.height && RowStartsBurst(cfg, r)
    ensures IsLanding(cfg.TotalWords(), order) && !Right(cfg, mem, was, order, r, 0)
  {
    WordCount(cfg);
    RowWidth(cfg);
    var g := WordIndex(cfg, r, 0);
    var p := WordIndex(cfg, r - 1, cfg.WordsPerRow() - 1);
    IndexIs(cfg, g);
    IndexIs(cfg, p);
    RowBefore(cfg.WordsPerRow(), r, g, p);
    Addresses(cfg, p);
    mem := x => if x == cfg.src + r * cfg.srcStride then 1 else 0;
    order := LateOrder(cfg.TotalWords(), p / 4 * 4, g);
    LateIsLanding(cfg.TotalWords(), p / 4 * 4, g);
    hide WordAt, ByteOf, ByteAfter, Writes, Config.SrcAddr, Config.DstAddr, Fits, Config.TotalWords;
    WritesLength(cfg, mem);
    var ws, x := Landed(Writes(cfg, mem), order), cfg.dst + r * cfg.dstStride;
    WritesAt(cfg, mem, p);
    assert order[|order| - 1] == p;
    RowPitch(r, cfg.dstStride);
    RowPitch(r, cfg.srcStride);
    LastDecides(was, ws, x, |ws| - 1);
    ByteOfWord(mem, cfg.SrcAddr(p), x - cfg.DstAddr(p));
  }

  lemma RowBefore(n: nat, r: nat, g: nat, p: nat)
    requires 1 <= r && 0 < n && g == n * r && p == n * (r - 1) + (n - 1)
    ensures p == g - 1 && g == r * n
  {}

  lemma RowPitch(r: nat, stride: nat)
    requires r >= 1
    ensures r * stride == (r - 1) * stride + stride
  {}

  // ---- Exactly ----

  /** The bytes of the rectangle are right for every source, every destination and every order in which
      the bursts can land, if and only if the order is free or no row but the first begins with the
      first word of a burst. */
  lemma OrderExactly(cfg: Config)
    requires Fits(cfg) && cfg.dstStride >= cfg.width
    ensures (forall mem: Bytes, was: Bytes, order: seq<nat>, r: nat, b: nat ::
              IsLanding(cfg.TotalWords(), order) && r < cfg.height && b < cfg.width ==>
                Right(cfg, mem, was, order, r, b))
            <==> OrderFree(cfg) || RowsShareBursts(cfg)
  {
    hide IsLanding, Right, Config.TotalWords, RowStartsBurst;
    if OrderFree(cfg) || RowsShareBursts(cfg) {
      forall mem: Bytes, was: Bytes, order: seq<nat>, r: nat, b: nat
        | IsLanding(cfg.TotalWords(), order) && r < cfg.height && b < cfg.width
        ensures Right(cfg, mem, was, order, r, b)
      {
        if OrderFree(cfg) {
          FreeOrderLands(cfg, mem, was, order, r, b);
        } else {
          SharedBurstsLand(cfg, mem, was, order, r, b);
        }
      }
    } else {
      var r :| 1 <= r < cfg.height && RowStartsBurst(cfg, r);
      var was: Bytes := x => 0;
      var mem, order := LateBurstSpoils(cfg, was, r);
    }
  }
}
