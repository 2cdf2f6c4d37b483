/** Where a minimum of 0 goes wrong: streams on which a used-up boundary stops the hashing. */
module StaleRuns {
  import opened Words
  import opened Hashing
  import opened ChunkSpec
  import opened BoundaryQueue
  import opened Chunking
  import opened ChunkLaws

  // Window 1, batch 1, mask 0 (every byte is a hit) and min 0.
  function EveryByte(h: Scheme, max: nat): Params {
    Params(h, 1, 0, 0, max, 1)
  }

  lemma {:induction false} EveryByteHits(h: Scheme, max: nat, s: seq<Byte>, e: nat)
    requires e < |s|
    ensures Hit(EveryByte(h, max), s, e)
  {
    AndBound(h.Of(s[e..e + 1]), 0);
  }

  // The three scans of the core below: nothing hidden, all from byte 1 on hidden, one byte too early.
  lemma {:induction false} EveryByteScans(h: Scheme, s: seq<Byte>)
    requires |s| == 4
    ensures var p := EveryByte(h, 2);
      && Scan(p, s, 0, 0, 4) == Cut(0, true)
      && Scan(p, s, 1, 1, 1) == Cut(2, false)
      && Scan(p, s, 3, 2, 4) == Cut(2, true)
  {
    hide Hit;
    EveryByteHits(h, 2, s, 0);
    EveryByteHits(h, 2, s, 2);
    assert Scan(EveryByte(h, 2), s, 1, 2, 1) == Cut(2, false);
  }

  // The naive chunker cuts after every byte.
  lemma {:induction false} EveryByteNaive(h: Scheme, s: seq<Byte>)
    requires |s| == 4
    ensures [Chunk(0, s[0..1], true, h.Of(s[0..1])), Chunk(1, s[1..2], true, h.Of(s[1..2]))]
      <= Naive(EveryByte(h, 2), s, 0)
  {
    hide Hit, Naive;
    var p := EveryByte(h, 2);
    EveryByteHits(h, 2, s, 0);
    EveryByteHits(h, 2, s, 1);
    assert Scan(p, s, 0, 0, 4) == Cut(0, true);
    assert Scan(p, s, 1, 1, 4) == Cut(1, true);
    NaiveStep(p, s, 0);
    NaiveStep(p, s, 1);
  }

  // A second chunk of two bytes is none of its chunks.
  lemma {:induction false} EveryByteMissed(h: Scheme, s: seq<Byte>, chunks: seq<Chunk>)
    requires |s| == 4 && |chunks| >= 2 && chunks[1].bytes == s[1..3]
    ensures !(chunks[..2] <= Naive(EveryByte(h, 2), s, 0))
  {
    hide Naive;
    EveryByteNaive(h, s);
    assert Naive(EveryByte(h, 2), s, 0)[1].bytes == s[1..2];
    assert |s[1..2]| != |chunks[..2][1].bytes|;
  }

  // The core, fed four bytes at once, hashes one, uses its boundary up and stops hashing: the second chunk
  // is forced over a boundary. The third chunk comes out empty, at the boundary hashed too late.
  method UsedUpQueue(h: Scheme, s: seq<Byte>) returns (chunks: seq<Chunk>)
    requires |s| == 4
    ensures |chunks| == 3 && chunks[0].bytes == s[0..1] && chunks[0].contentDefined
    ensures chunks[1].bytes == s[1..3] && !chunks[1].contentDefined
    ensures chunks[2].bytes == [] && chunks[2].contentDefined
    ensures !(chunks[..2] <= Naive(EveryByte(h, 2), s, 0))
  {
    hide QueueOk, Naive, WindowSum, Hit, Scan, Conclude, Params.Valid, ChunkerCore.Valid, ChunkerCore.JustCut;
    h.TakesShort(1);
    var c := new ChunkerCore(h, 1, 0, 0, 2, 1);
    c.Feed(s);
    EveryByteScans(h, s);
    assert c.stream == s;
    var first := CutNext(c, Cut(0, true));
    UsedUp(c, 0);
    var second := CutNext(c, Cut(2, false));
    var third := CutNext(c, Cut(2, true));
    chunks := [first, second, third];
    EveryByteMissed(h, s, chunks);
  }

  // A call of next that cuts at d.
  method CutNext(c: ChunkerCore, ghost d: Decision) returns (chunk: Chunk)
    requires c.Valid() && !c.done && d.Cut?
    requires d == Scan(c.P(), c.stream, c.chunkStart, c.From(), c.Horizon())
    modifies c.Repr()
    ensures c.Valid() && fresh(c.Repr() - old(c.Repr())) && !c.done && c.stream == old(c.stream)
    ensures c.eof == old(c.eof)
    ensures c.chunkStart == d.end + 1 <= |c.stream| && old(c.chunkStart) <= d.end + 1
    ensures chunk == ChunkAt(c.P(), c.stream, old(c.chunkStart), d)
    ensures d.contentDefined ==> c.JustCut(old(c.hashedTo))
    ensures old(c.Stale()) ==> c.hashedTo == old(c.hashedTo) && c.bounds == old(c.bounds)
  {
    hide QueueOk, Scan;
    var r := c.Next();
    assert c.emitted[|old(c.emitted)|] == c.Current();
    chunk := Chunk(c.offset, c.chunk, c.contentDefined, c.sumv);
  }

  // Nothing but the boundary just used is recorded.
  lemma {:induction false} UsedUp(c: ChunkerCore, h0: nat)
    requires c.Valid() && c.JustCut(h0) && h0 < c.chunkStart && c.batchSize == 1
    ensures c.hashedTo == c.chunkStart
    ensures c.bcur == |c.bounds| > 0 && c.bounds[|c.bounds| - 1] + 1 == c.chunkStart
  {
    QueueSpan(c.P(), c.stream, c.bounds, c.bcur, c.chunkStart, c.hashedTo);
  }

  // ----- draining at its slowest

  lemma {:induction false} SlowScans(h: Scheme, s: seq<Byte>, i: nat)
    requires i < |s|
    ensures var p := EveryByte(h, 1);
      && Scan(p, s, 0, 0, |s|) == Cut(0, true)
      && Scan(p, s, i, i, i) == Cut(i, false)
      && Scan(p, s, i + 1, i, |s|) == Cut(i, true)
  {
    hide Hit;
    EveryByteHits(h, 1, s, 0);
    EveryByteHits(h, 1, s, i);
  }

  lemma {:induction false} SlowEnd(h: Scheme, s: seq<Byte>)
    ensures Scan(EveryByte(h, 1), s, |s|, |s|, |s|) == Exhausted
  {
  }

  // The core right after a cut at the last boundary it has recorded, i bytes into s.
  ghost predicate SlowAt(c: ChunkerCore, h: Scheme, s: seq<Byte>, i: nat)
    reads c
  {
    && c.Valid() && !c.done && c.eof && c.stream == s && c.P() == EveryByte(h, 1)
    && c.chunkStart == i == c.hashedTo
    && c.bcur == |c.bounds| > 0 && c.bounds[|c.bounds| - 1] + 1 == i
  }

  // The first byte takes one call.
  method SlowStart(h: Scheme, s: seq<Byte>) returns (c: ChunkerCore, first: Chunk)
    requires 0 < |s| && EveryByte(h, 1).Fits(|s|)
    ensures SlowAt(c, h, s, 1) && fresh(c.Repr()) && first.bytes == s[..1]
  {
    hide QueueOk, WindowSum, Hit, Scan, Params.Valid, ChunkerCore.Valid, ChunkerCore.JustCut;
    h.TakesShort(1);
    c := new ChunkerCore(h, 1, 0, 0, 1, 1);
    c.Feed(s);
    c.Finish();
    assert c.stream == s;
    SlowScans(h, s, 0);
    first := CutNext(c, Cut(0, true));
    UsedUp(c, 0);
  }

  // Two calls for one byte: a forced cut over its boundary, then an empty chunk at the boundary hashed too late.
  method SlowByte(c: ChunkerCore, h: Scheme, ghost s: seq<Byte>, i: nat) returns (forced: Chunk, empty: Chunk)
    requires SlowAt(c, h, s, i) && i < |s|
    modifies c.Repr()
    ensures SlowAt(c, h, s, i + 1) && fresh(c.Repr() - old(c.Repr()))
    ensures forced.bytes == s[i..i + 1] && !forced.contentDefined && empty.bytes == []
  {
    hide QueueOk, WindowSum, Hit, Scan, Params.Valid, Params.Fits, ChunkerCore.Valid, ChunkerCore.JustCut;
    SlowScans(h, s, i);
    forced := CutNext(c, Cut(i, false));
    empty := CutNext(c, Cut(i, true));
    UsedUp(c, i);
  }

  // With max 1, everything fed at once and the stream finished, every byte but the first takes two calls, and one
  // more tells the end: 2 |s| in all.
  method SlowDrain(h: Scheme, s: seq<Byte>) returns (chunks: seq<Chunk>, n: nat, last: CoreState)
    requires 0 < |s| && EveryByte(h, 1).Fits(|s|)
    ensures last == CoreDone && n == 2 * |s| && |chunks| == n - 1 && chunks[0].bytes == s[..1]
    ensures forall k :: 1 <= k < |s| ==> chunks[2 * k - 1].bytes == s[k..k + 1] && chunks[2 * k].bytes == []
  {
    hide QueueOk, Scan, Hit, ChunkerCore.Valid;
    var c, first := SlowStart(h, s);
    chunks, n := [first], 1;
    var i := 1;
    while i < |s|
      invariant 1 <= i <= |s| && n == 2 * i - 1 == |chunks| && chunks[0].bytes == s[..1]
      invariant forall k :: 1 <= k < i ==> chunks[2 * k - 1].bytes == s[k..k + 1] && chunks[2 * k].bytes == []
      invariant SlowAt(c, h, s, i) && fresh(c.Repr())
    {
      var forced, empty := SlowByte(c, h, s, i);
      chunks, n, i := chunks + [forced, empty], n + 2, i + 1;
    }
    SlowEnd(h, s);
    last := c.Next();
    n := n + 1;
  }
}
