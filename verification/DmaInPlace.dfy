/** The DMA engine copying within one memory: its writes land while it reads, and every read is
    answered from the memory as it then is. */
module DmaInPlace {
  import opened Words
  import opened DmaModel
  import opened DmaProof
  import opened DmaRuns
  import opened DmaCopy

  /** The memory after the writes `ws` have landed in `was`. */
  function Now(was: Bytes, ws: seq<WriteReq>): Bytes { x => ByteAfter(was, ws, x) }

  /** Step `i`: only writes made by then have landed, later ones land on top, and a response carries
      what the memory holds. */
  predicate Linked(was: Bytes, ss: seq<Dma>, steps: seq<Step>, lands: seq<seq<WriteReq>>, i: nat)
    requires i < |steps| && |ss| == |lands| == |steps| + 1
  {
    && Shape(ss[i]) && Possible(ss[i], steps[i]) && ss[i + 1] == Next(ss[i], steps[i])
    && lands[i] <= lands[i + 1] && (forall w :: w in lands[i] ==> w in ss[i].written)
    && (steps[i].ReadResponse? ==>
          forall k :: 0 <= k < |steps[i].data| ==>
            steps[i].data[k] == WordAt(Now(was, lands[i]), ss[i].asked.value[k].addr))
  }

  /** A run within one memory; `lands[i]` are the writes that have landed by state `i`, in order. */
  predicate IsRunWithin(was: Bytes, rest: Dma, cfg: Config, first: bool,
                        ss: seq<Dma>, steps: seq<Step>, lands: seq<seq<WriteReq>>) {
    && |rest.buffer| == CAPACITY && cfg.Valid() && rest.pendingWrites <= 0 && rest.asked == None
    && AllLegal(rest.sent) && AllLegal(rest.queue)
    && |ss| == |lands| == |steps| + 1 && ss[0] == Enable(rest, cfg, first) && lands[0] == []
    && forall i {:trigger Linked(was, ss, steps, lands, i)} :: 0 <= i < |steps| ==> Linked(was, ss, steps, lands, i)
  }

  /** The padded rows at the two ends have no byte in common. */
  ghost predicate Apart(cfg: Config) {
    forall x :: InRows(x, cfg.src, cfg.srcStride, cfg.height, 4 * cfg.WordsPerRow()) ==>
                  !InRows(x, cfg.dst, cfg.dstStride, cfg.height, 4 * cfg.WordsPerRow())
  }

  lemma SourceInRows(cfg: Config, g: nat, k: nat)
    requires Fits(cfg) && g < cfg.TotalWords() && k < 4
    ensures cfg.WordsPerRow() > 0
    ensures InRows(cfg.SrcAddr(g) + k, cfg.src, cfg.srcStride, cfg.height, 4 * cfg.WordsPerRow())
  {
    Addresses(cfg, g);
    assert IsAt(cfg.SrcAddr(g) + k, cfg.src, cfg.srcStride, cfg.Row(g), 4 * cfg.Col(g) + k);
  }

  lemma WritesInRows(cfg: Config, m: Source, n: nat, w: WriteReq, x: int)
    requires Fits(cfg) && n <= cfg.TotalWords() && w in Transfer(cfg, m, n) && Covers(w, x)
    ensures InRows(x, cfg.dst, cfg.dstStride, cfg.height, 4 * cfg.WordsPerRow())
  {
    var g :| 0 <= g < n && Transfer(cfg, m, n)[g] == w;
    Addresses(cfg, g);
    assert IsAt(x, cfg.dst, cfg.dstStride, cfg.Row(g), 4 * cfg.Col(g) + (x - w.addr));
  }

  lemma SourceByteStays(was: Bytes, cfg: Config, n: nat, landed: seq<WriteReq>, g: nat, k: nat)
    requires Fits(cfg) && Apart(cfg) && n <= cfg.TotalWords() && g < cfg.TotalWords() && cfg.WordsPerRow() > 0 && k < 4
    requires forall w :: w in landed ==> w in Transfer(cfg, Reads(was), n)
    ensures Now(was, landed)(cfg.SrcAddr(g) + k) == was(cfg.SrcAddr(g) + k)
  {
    hide Config.SrcAddr, ByteAfter, Transfer, InRows, Fits, Config.TotalWords;
    SourceInRows(cfg, g, k);
    forall j | 0 <= j < |landed|
      ensures !Covers(landed[j], cfg.SrcAddr(g) + k)
    {
      assert landed[j] in landed;
      if Covers(landed[j], cfg.SrcAddr(g) + k) {
        WritesInRows(cfg, Reads(was), n, landed[j], cfg.SrcAddr(g) + k);
      }
    }
    Untouched(was, landed, cfg.SrcAddr(g) + k);
  }

  /** What has landed leaves the source as it was. */
  lemma SourceStays(was: Bytes, cfg: Config, n: nat, landed: seq<WriteReq>, g: nat)
    requires Fits(cfg) && Apart(cfg) && n <= cfg.TotalWords() && g < cfg.TotalWords() && cfg.WordsPerRow() > 0
    requires forall w :: w in landed ==> w in Transfer(cfg, Reads(was), n)
    ensures WordAt(Now(was, landed), cfg.SrcAddr(g)) == WordAt(was, cfg.SrcAddr(g))
  {
    hide *;
    SourceByteStays(was, cfg, n, landed, g, 0);
    SourceByteStays(was, cfg, n, landed, g, 1);
    SourceByteStays(was, cfg, n, landed, g, 2);
    SourceByteStays(was, cfg, n, landed, g, 3);
    SameWord(was, Now(was, landed), cfg.SrcAddr(g));
  }

  lemma SameWord(m: Bytes, n: Bytes, a: int)
    requires m(a) == n(a) && m(a + 1) == n(a + 1) && m(a + 2) == n(a + 2) && m(a + 3) == n(a + 3)
    ensures WordAt(m, a) == WordAt(n, a)
  {}

  /** The words a response carries are those of the source before the transfer. */
  lemma AnswersAreFaithful(was: Bytes, cfg: Config, ss: seq<Dma>, steps: seq<Step>, lands: seq<seq<WriteReq>>, i: nat)
    requires i < |steps| && |ss| == |lands| == |steps| + 1 && Linked(was, ss, steps, lands, i)
    requires Invariant(Reads(was), ss[i]) && ss[i].cfg == cfg && Fits(cfg) && Apart(cfg)
    ensures Faithful(Reads(was), ss[i], steps[i])
  {
    hide ByteAfter, WordAt, Apart, Fits, Fill, WritePackets, Chosen, WritesOf, Config.SrcAddr, Config.TotalWords;
    var s := ss[i];
    WhatIsAsked(was, s);
    if steps[i].ReadResponse? {
      var n := s.transferred + s.bufferIndex;
      forall k | 0 <= k < |steps[i].data|
        ensures steps[i].data[k] == Reads(was)(s.asked.value[k].addr)
      {
        SourceStays(was, cfg, s.transferred, lands[i], n + k);
      }
    }
  }

  lemma WhatIsAsked(was: Bytes, s: Dma)
    requires Invariant(Reads(was), s)
    ensures s.cfg.Valid() && s.cfg.WordsPerRow() > 0 && s.transferred <= s.cfg.TotalWords()
    ensures s.written == Transfer(s.cfg, Reads(was), s.transferred)
    ensures s.asked.Some? ==> s.transferred + s.bufferIndex + |s.asked.value| <= s.cfg.TotalWords()
    ensures s.asked.Some? ==>
              forall k :: 0 <= k < |s.asked.value| ==>
                s.asked.value[k].addr == s.cfg.SrcAddr(s.transferred + s.bufferIndex + k)
  {
    hide Transfer;
    WordCount(s.cfg);
  }

  /** A run within one memory is a run over a source that does not change. */
  lemma {:induction false} PrefixIsRun(was: Bytes, rest: Dma, cfg: Config, first: bool,
                                       ss: seq<Dma>, steps: seq<Step>, lands: seq<seq<WriteReq>>, i: nat)
    requires IsRunWithin(was, rest, cfg, first, ss, steps, lands) && Fits(cfg) && Apart(cfg) && i <= |steps|
    ensures IsRun(Reads(was), rest, cfg, first, ss[..i + 1], steps[..i])
  {
    hide Invariant, Apart, Fits, Enable, Next, Conserved, AllLegal, Faithful, Possible;
    if i > 0 {
      PrefixIsRun(was, rest, cfg, first, ss, steps, lands, i - 1);
      RunKeeps(Reads(was), rest, cfg, first, ss[..i], steps[..i - 1], i - 1);
      assert Linked(was, ss, steps, lands, i - 1);
      AnswersAreFaithful(was, cfg, ss, steps, lands, i - 1);
      var ts, us := ss[..i + 1], steps[..i];
      forall j | 0 <= j < |us|
        ensures DmaRuns.Linked(Reads(was), ts, us, j)
      {
        if j < i - 1 { assert DmaRuns.Linked(Reads(was), ss[..i], steps[..i - 1], j); }
      }
    }
  }

  /** Whatever lands when: a run over the memory as it was before is a run within one memory, for any writes
      landing in any order as long as each has been made. */
  lemma LandingsAreFree(was: Bytes, rest: Dma, cfg: Config, first: bool,
                        ss: seq<Dma>, steps: seq<Step>, lands: seq<seq<WriteReq>>)
    requires IsRun(Reads(was), rest, cfg, first, ss, steps) && Fits(cfg) && Apart(cfg)
    requires |ss| == |lands| == |steps| + 1 && lands[0] == []
    requires forall i :: 0 <= i < |steps| ==> lands[i] <= lands[i + 1]
    requires forall i :: 0 <= i < |steps| ==> forall w :: w in lands[i] ==> w in ss[i].written
    ensures IsRunWithin(was, rest, cfg, first, ss, steps, lands)
  {
    hide Invariant, Apart, Fits, Enable, Next, Conserved, AllLegal, Possible;
    forall i | 0 <= i < |steps|
      ensures Linked(was, ss, steps, lands, i)
    {
      RunKeeps(Reads(was), rest, cfg, first, ss, steps, i);
      assert DmaRuns.Linked(Reads(was), ss, steps, i);
      AnswersAreCurrent(was, cfg, ss[i], steps[i], lands[i]);
    }
  }

  lemma AnswersAreCurrent(was: Bytes, cfg: Config, s: Dma, st: Step, landed: seq<WriteReq>)
    requires Shape(s) && Possible(s, st) && Faithful(Reads(was), s, st)
    requires Invariant(Reads(was), s) && s.cfg == cfg && Fits(cfg) && Apart(cfg)
    requires forall w :: w in landed ==> w in s.written
    ensures st.ReadResponse? ==>
              forall k :: 0 <= k < |st.data| ==> st.data[k] == WordAt(Now(was, landed), s.asked.value[k].addr)
  {
    hide ByteAfter, WordAt, Apart, Fits, Fill, WritePackets, Chosen, WritesOf, Config.SrcAddr, Config.TotalWords;
    WhatIsAsked(was, s);
    if st.ReadResponse? {
      forall k | 0 <= k < |st.data|
        ensures st.data[k] == WordAt(Now(was, landed), s.asked.value[k].addr)
      {
        SourceStays(was, cfg, s.transferred, landed, s.transferred + s.bufferIndex + k);
      }
    }
  }

  /** The DMA engine copies within one memory. Reads are answered from the memory as it is at that
      moment, writes land when they like and in any order; if the padded rows are apart, then once the
      engine is done and everything has landed, byte `b` of destination row `r` is what byte `b` of
      source row `r` was before the transfer, and every byte outside the destination rows is as before. */
  lemma CopiesInPlace(was: Bytes, rest: Dma, cfg: Config, first: bool,
                      ss: seq<Dma>, steps: seq<Step>, lands: seq<seq<WriteReq>>, x: int)
    requires IsRunWithin(was, rest, cfg, first, ss, steps, lands) && Fits(cfg) && Apart(cfg) && OrderFree(cfg)
    requires |ss| == |lands| == |steps| + 1 && ss[|steps|].done && AllLanded(rest, ss[|steps|], lands[|steps|])
    ensures forall r: nat, b: nat ::
              r < cfg.height && b < 4 * cfg.WordsPerRow() && IsAt(x, cfg.dst, cfg.dstStride, r, b) ==>
              Now(was, lands[|steps|])(x) == was(cfg.src + r * cfg.srcStride + b)
    ensures !InRows(x, cfg.dst, cfg.dstStride, cfg.height, 4 * cfg.WordsPerRow()) ==>
              Now(was, lands[|steps|])(x) == was(x)
  {
    PrefixIsRun(was, rest, cfg, first, ss, steps, lands, |steps|);
    assert ss[..|steps| + 1] == ss && steps[..|steps|] == steps;
    hide IsRun, IsRunWithin, Apart, AllLanded, Fits, OrderFree, ByteAfter;
    RunCopies(was, rest, cfg, first, ss, steps, |steps|, was, lands[|steps|], x);
  }
}
