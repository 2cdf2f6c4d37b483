/**
 The chunking state machine: buffered bytes, a lazily advanced hashing frontier,
 a queue of pending boundaries and the min/max selection. How bytes arrive is
 left to whoever feeds it.
 */
module Chunking {
  import opened Words
  import opened Lanes
  import opened Hashing
  import opened ChunkSpec
  import opened BoundaryQueue
  import opened ChunkFrontier

  // Queue positions from window positions, as HashForward computes them.
  function Shifted(gs: seq<int>, d: int): seq<int> {
    seq(|gs|, i requires 0 <= i < |gs| => gs[i] + d)
  }

  // The window ends of [max(lo, w - 1), hi): what one call of BatchBoundaries evaluates.
  function Ends(lo: nat, hi: nat): (r: seq<nat>)
    ensures |r| == if lo < hi then hi - lo else 0
    ensures forall i :: 0 <= i < |r| ==> r[i] == lo + i
  {
    seq(if lo < hi then hi - lo else 0, i requires 0 <= i => lo + i)
  }

  lemma {:induction false} EndsAscend(before: seq<nat>, frontier: nat, lo: nat, hi: nat)
    requires Ascending(before) && frontier <= lo && frontier <= hi
    requires forall i :: 0 <= i < |before| ==> before[i] < frontier
    ensures Ascending(before + Ends(lo, hi))
    ensures var r := before + Ends(lo, hi); forall i :: 0 <= i < |r| ==> r[i] < hi
  {
  }

  lemma {:induction false} ShiftedMember(gs: seq<int>, d: int, e: int)
    ensures e in Shifted(gs, d) <==> e - d in gs
  {
    var more := Shifted(gs, d);
    if e - d in gs {
      var i :| 0 <= i < |gs| && gs[i] == e - d;
      assert more[i] == e;
    }
  }

  lemma {:induction false} SliceOfSlice<T>(s: seq<T>, lo: nat, hi: nat, i: nat, j: nat)
    requires i <= j && lo + j <= hi <= |s|
    ensures s[lo..hi][i..j] == s[lo + i..lo + j]
  {
    var x, y := s[lo..hi][i..j], s[lo + i..lo + j];
    assert |x| == |y|;
    assert forall k :: 0 <= k < |x| ==> x[k] == s[lo + i + k] == y[k];
  }

  // A hit of the slice s[bufStart..end] is a hit of s.
  lemma {:induction false} HitOfSlice(p: Params, s: seq<Byte>, bufStart: nat, end: nat, g: nat)
    requires p.Valid() && bufStart + p.window <= end <= |s| && g <= end - bufStart - p.window
    ensures And(p.scheme.Sums(s[bufStart..end], p.window)[g], p.mask) == 0
      <==> Hit(p, s, bufStart + g + p.window - 1)
  {
    var w, lo := p.window, bufStart + g;
    SliceOfSlice(s, bufStart, end, g, g + w);
    assert lo + w - 1 + 1 - w == lo && lo + w - 1 + 1 == lo + w;
  }

  // The positions BatchBoundaries reports over s[bufStart..end], shifted, are the hits it covers.
  lemma {:induction false} HitsOfSlice(p: Params, s: seq<Byte>, bufStart: nat, end: nat, gs: seq<nat>, more: seq<int>)
    requires p.Valid() && bufStart + p.window <= end <= |s|
    requires gs == Hits(p.scheme.Sums(s[bufStart..end], p.window), p.mask, 0, end - bufStart - p.window + 1)
    requires more == Shifted(gs, bufStart + p.window - 1)
    ensures forall i :: 0 <= i < |more| ==> more[i] >= 0
    ensures Ascending(more)
    ensures forall e: nat :: e in more <==> bufStart + p.window - 1 <= e < end && Hit(p, s, e)
  {
    hide Hits, And, Hit;
    var d := bufStart + p.window - 1;
    var sums := p.scheme.Sums(s[bufStart..end], p.window);
    HitsExact(sums, p.mask, 0, |sums|);
    forall e: nat ensures e in more <==> d <= e < end && Hit(p, s, e) {
      ShiftedMember(gs, d, e);
      if d <= e < end { HitOfSlice(p, s, bufStart, end, e - d); }
    }
  }

  // Hashing the slice s[bufStart..end], whose lead-in reaches back from the frontier as far as a window needs,
  // adds exactly the hits between the frontier and end.
  lemma {:induction false} Forwarded(p: Params, s: seq<Byte>, bounds: seq<nat>, bcur: nat, start: nat, from: nat,
                                     hashedTo: nat, bufStart: nat, end: nat, gs: seq<nat>, more: seq<int>)
    requires p.Valid() && QueueOk(p, s, bounds, bcur, start, from, hashedTo) && from <= hashedTo < end <= |s|
    requires bufStart + p.window == hashedTo + 1 || (bufStart == 0 && hashedTo < p.window)
    requires bufStart + p.window <= end
    requires gs == Hits(p.scheme.Sums(s[bufStart..end], p.window), p.mask, 0, end - bufStart - p.window + 1)
    requires more == Shifted(gs, bufStart + p.window - 1)
    ensures forall i :: 0 <= i < |more| ==> 0 <= more[i]
    ensures QueueOk(p, s, bounds + more, bcur, start, from, end)
    ensures forall i :: |bounds| <= i < |bounds + more| ==> hashedTo <= (bounds + more)[i]
    ensures more != [] <==> HitIn(p, s, hashedTo, end)
  {
    HitsOfSlice(p, s, bufStart, end, gs, more);
    if HitIn(p, s, hashedTo, end) {
      var e :| hashedTo <= e < end && Hit(p, s, e);
      assert e in more;
    }
    if more != [] { assert more[0] in more; }
    forall i | 0 <= i < |more| ensures hashedTo <= more[i] { assert more[i] in more; }
    QueueHashed(p, s, bounds, bcur, start, from, hashedTo, more, end);
  }

  // One call of HashForward with the frontier at h0 past the skipped bytes: a batch of window ends hashed,
  // or nothing because every window the buffered bytes (or so small a batch) can form has been.
  ghost predicate HashStep(p: Params, s: seq<Byte>, progress: bool, h0: nat, h1: nat,
                           before: seq<nat>, after: seq<nat>, evaluated: seq<nat>, evaluated': seq<nat>) {
    && before <= after
    && (progress ==>
      && h0 < h1 == Min(h0 + p.batchSize, |s|) && p.window <= h1
      && (after != before <==> HitIn(p, s, h0, h1))
      && (forall i :: |before| <= i < |after| ==> h0 <= after[i])
      && evaluated' == evaluated + Ends(Max(h0, p.window - 1), h1))
    && (!progress ==>
      && h1 == h0 && after == before && evaluated' == evaluated
      && (|s| <= h0 || |s| < p.window || h0 + p.batchSize < p.window))
  }

  // The batches hashed before the queue is scanned: on until a candidate is queued, the frontier passes the
  // longest chunk, or no further window can be formed.
  ghost predicate HashedAhead(p: Params, consumed: nat, start: nat, h0: nat, h1: nat,
                              before: seq<nat>, after: seq<nat>) {
    && before <= after && h0 <= h1
    && (forall i :: |before| <= i < |after| ==> start + p.min <= after[i] + 1 && h1 <= after[i] + p.batchSize)
    && (Candidate(p, start, before) ==> after == before && h1 == h0)
    && (Candidate(p, start, after) || PastMax(p, start, h1) || consumed <= h1 || consumed < p.window
        || (start + p.min <= h1 + 1 && h1 + p.batchSize < p.window))
    && (after == before || consumed <= h1 || h0 + p.batchSize < consumed)
    && (Max(h0, start + p.min - 1) + p.batchSize < p.window ==> after == before)
  }

  // The last boundary recorded, used or not, is far enough from start.
  ghost predicate Candidate(p: Params, start: nat, bounds: seq<nat>) {
    bounds != [] && start + p.min <= bounds[|bounds| - 1] + 1
  }

  // The batches hashed so far on the way there.
  ghost predicate AheadSoFar(p: Params, consumed: nat, start: nat, h0: nat, h1: nat,
                             before: seq<nat>, after: seq<nat>) {
    && before <= after && h0 <= h1
    && (after == before || Candidate(p, start, after))
    && (forall i :: |before| <= i < |after| ==> start + p.min <= after[i] + 1 && h1 <= after[i] + p.batchSize)
    && (Candidate(p, start, before) ==> after == before && h1 == h0)
    && (after == before || consumed <= h1 || h0 + p.batchSize < consumed)
    && (Max(h0, start + p.min - 1) + p.batchSize < p.window ==>
      after == before && h1 <= Max(h0, start + p.min - 1))
  }

  lemma {:induction false} AheadStart(p: Params, consumed: nat, start: nat, h0: nat, before: seq<nat>)
    ensures AheadSoFar(p, consumed, start, h0, h0, before, before)
  {
  }

  lemma {:induction false} LastIsCandidate(p: Params, start: nat, bounds: seq<nat>)
    ensures Candidate(p, start, bounds) <==> |bounds| > 0 && bounds[|bounds| - 1] >= start + p.min - 1
  {
  }

  lemma {:induction false} AheadStep(p: Params, s: seq<Byte>, start: nat, h0: nat, h1: nat, h2: nat,
                                     before: seq<nat>, mid: seq<nat>, after: seq<nat>, progress: bool,
                                     evaluated: seq<nat>, evaluated': seq<nat>)
    requires AheadSoFar(p, |s|, start, h0, h1, before, mid) && !Candidate(p, start, mid) && p.Valid()
    requires HashStep(p, s, progress, Max(h1, start + p.min - 1), h2, mid, after, evaluated, evaluated')
    ensures AheadSoFar(p, |s|, start, h0, h2, before, after)
    ensures if progress then h1 < h2 <= |s| else HashedAhead(p, |s|, start, h0, h2, before, after)
  {
    hide Ends, HitIn;
  }

  // Where the loop that hashes ahead ends: at once with a candidate recorded.
  ghost function LoopEnd(p: Params, s: seq<Byte>, start: nat, h: nat, bounds: seq<nat>): nat
    requires p.batchSize >= 1
  {
    if Candidate(p, start, bounds) then h else HashOn(p, s, start, h)
  }

  lemma {:induction false} LoopOver(p: Params, s: seq<Byte>, start: nat, h: nat, bounds: seq<nat>)
    requires p.batchSize >= 1 && (Candidate(p, start, bounds) || PastMax(p, start, h))
    ensures LoopEnd(p, s, start, h, bounds) == h
  {
  }

  // Every turn of the loop is a step of the way there.
  lemma {:induction false} LoopStep(p: Params, s: seq<Byte>, start: nat, h1: nat, h2: nat, mid: seq<nat>,
                                    after: seq<nat>, progress: bool, evaluated: seq<nat>, evaluated': seq<nat>)
    requires p.Valid() && !Candidate(p, start, mid) && !PastMax(p, start, h1)
    requires HashStep(p, s, progress, Max(h1, start + p.min - 1), h2, mid, after, evaluated, evaluated')
    ensures if progress then LoopEnd(p, s, start, h2, after) == LoopEnd(p, s, start, h1, mid)
            else LoopEnd(p, s, start, h1, mid) == h2
  {
    hide Ends, HitIn;
  }

  // With no minimum: the last boundary taken off is where the last chunk ended.
  ghost predicate CutAt(p: Params, bounds: seq<nat>, bcur: nat, start: nat) {
    p.min == 0 && 0 < bcur <= |bounds| && bounds[bcur - 1] + 1 == start
  }

  lemma {:induction false} CutStays(p: Params, before: seq<nat>, after: seq<nat>, bcur0: nat, bcur: nat, start: nat)
    requires before <= after && bcur == |after| && bcur0 <= |before| && (p.min == 0 ==> bcur == bcur0)
    ensures CutAt(p, before, bcur0, start) == CutAt(p, after, bcur, start)
  {
  }

  lemma {:induction false} AheadDone(p: Params, consumed: nat, start: nat, h0: nat, h1: nat,
                                     before: seq<nat>, after: seq<nat>)
    requires AheadSoFar(p, consumed, start, h0, h1, before, after)
    requires Candidate(p, start, after) || PastMax(p, start, h1) || consumed <= h1
    ensures HashedAhead(p, consumed, start, h0, h1, before, after)
  {
  }

  // The last byte before which a hit could still be seen; see ChunkerCore.Horizon.
  ghost function HorizonOf(p: Params, s: seq<Byte>, bounds: seq<nat>, bcur: nat, start: nat, hashedTo: nat): nat {
    if (bcur == |bounds| && Candidate(p, start, bounds)) || Max(hashedTo, start + p.min - 1) + p.batchSize < p.window
    then hashedTo else |s|
  }

  // What is pending starts no earlier than the byte scanned from.
  lemma {:induction false} QueueAhead(p: Params, s: seq<Byte>, bounds: seq<nat>, bcur: nat, start: nat, from: nat,
                                      hashedTo: nat)
    requires QueueOk(p, s, bounds, bcur, start, from, hashedTo) && bcur < |bounds|
    ensures start <= bounds[bcur] + 1
  {
  }

  // What was taken off lies before the chunk.
  lemma {:induction false} QueueUsed(p: Params, s: seq<Byte>, bounds: seq<nat>, bcur: nat, start: nat, from: nat,
                                     hashedTo: nat)
    requires QueueOk(p, s, bounds, bcur, start, from, hashedTo)
    ensures bcur > 0 && p.min == 0 ==> bounds[bcur - 1] < start
  {
  }

  lemma {:induction false} FrontierFits(p: Params, s: seq<Byte>, bounds: seq<nat>, bcur: nat, start: nat, from: nat,
                                        hashedTo: nat)
    requires QueueOk(p, s, bounds, bcur, start, from, hashedTo) && p.Valid() && p.Fits(|s|) && start <= |s|
    ensures hashedTo < MAX_INT
  {
  }

  // With no minimum, an unhashed byte right before the chunk can still come up as a hit.
  lemma {:induction false} QueueBehind(p: Params, s: seq<Byte>, bounds: seq<nat>, bcur: nat, start: nat,
                                       hashedTo: nat)
    requires QueueOk(p, s, bounds, bcur, start, start, hashedTo) && hashedTo < start
    ensures QueueOk(p, s, bounds, bcur, start, start - 1, hashedTo)
  {
  }

  // What the queue scan selects after hashing ahead is what the byte-by-byte scan finds.
  lemma {:induction false} Selected(p: Params, s: seq<Byte>, before: seq<nat>, bcur0: nat, after: seq<nat>, bcur: nat,
                                    start: nat, from: nat, h0: nat, h1: nat)
    requires p.Valid() && start <= |s|
    requires QueueOk(p, s, before, bcur0, start, start, h0)
    requires HashedAhead(p, |s|, start, h0, h1, before, after)
    requires QueueOk(p, s, after, bcur, start, from, h1) && bcur0 <= bcur
    requires forall i :: bcur0 <= i < bcur ==> after[i] + 1 < start + p.min
    requires bcur < |after| ==> start + p.min <= after[bcur] + 1
    ensures bcur < |after| ==> after[bcur] < |s| && after[bcur] < h1 && (h1 == h0 || h1 <= after[bcur] + p.batchSize)
    ensures Scan(p, s, start, from, HorizonOf(p, s, before, bcur0, start, h0)) ==
      if bcur < |after| && !PastMax(p, start, after[bcur]) then Cut(after[bcur], true)
      else if p.max != MAX_INT && start + p.max <= |s| then Cut(start + p.max - 1, false)
      else Exhausted
  {
    var horizon := HorizonOf(p, s, before, bcur0, start, h0);
    if bcur < |after| {
      assert Hit(p, s, after[bcur]);
      assert after[bcur] < horizon by {
        if bcur < |before| { assert before[bcur] == after[bcur]; }
      }
    }
    if bcur < |after| && !PastMax(p, start, after[bcur]) {
      FirstBound(p, s, after, bcur, start, from, h1, horizon);
    } else {
      NoBound(p, s, after, bcur, start, from, h1, horizon);
    }
  }

  lemma {:induction false} FrontierGrows(p: Params, consumed: nat, start: nat, h0: nat, h1: nat, before: seq<nat>,
                                         after: seq<nat>)
    requires HashedAhead(p, consumed, start, h0, h1, before, after)
    ensures h0 <= h1 && before <= after
  {
  }

  // With at most one batch unhashed and nothing recorded before it was, hashing ahead reaches all there is.
  lemma {:induction false} StaysSynced(p: Params, consumed: nat, start: nat, h0: nat, h1: nat, before: seq<nat>,
                                       after: seq<nat>, d: Decision)
    requires HashedAhead(p, consumed, start, h0, h1, before, after)
    requires p.window <= p.batchSize && consumed <= h0 + p.batchSize && (before == [] || consumed <= h0)
    requires start <= consumed && (d.Cut? ==> d.end < consumed)
    requires match d
      case Cut(e, true) => e < h1
      case Cut(e, false) => p.max != MAX_INT && e + 1 == start + p.max
      case Exhausted => p.max == MAX_INT || consumed < start + p.max
    ensures after == [] || consumed <= h1
    ensures d.Cut? ==> d.end + 1 <= h1 || d.end + 1 < p.window
    ensures d.Exhausted? && consumed <= MAX_INT ==> consumed <= h1 || consumed < p.window
  {
  }

  class ChunkerCore {
    const h: Scheme
    const window: nat
    const mask: Word
    const min: nat
    const max: nat
    const batchSize: nat
    var la: array<Int32>
    var lb: array<Int32>

    // cbuf holds the bytes of the stream offsets [cbufBase, consumed).
    var cbuf: seq<Byte>
    var cbufBase: nat
    var chunkStart: nat
    var consumed: nat

    var bounds: seq<nat>
    var bcur: nat
    var hashedTo: nat

    var eof: bool
    var done: bool
    var chunk: seq<Byte>
    var sumv: Word
    var contentDefined: bool
    var offset: nat

    // What has been fed, what has been emitted, the window ends given to BatchBoundaries, and the calls of Next.
    ghost var stream: seq<Byte>
    ghost var emitted: seq<Chunk>
    ghost var evaluated: seq<nat>
    ghost var calls: seq<Call>

    function P(): Params {
      Params(h, window, mask, min, max, batchSize)
    }

    ghost function View(): View
      reads `stream, `chunkStart, `eof, `done, `emitted
    {
      ChunkSpec.View(stream, chunkStart, eof, done, emitted)
    }

    ghost function Current(): Chunk
      reads `offset, `chunk, `contentDefined, `sumv
    {
      Chunk(offset, chunk, contentDefined, sumv)
    }

    ghost function Repr(): set<object>
      reads `la, `lb
    {
      {this, la, lb}
    }

    ghost predicate Buffered()
      reads `la, `lb, `stream, `consumed, `cbuf, `cbufBase, `chunkStart, `bounds, `bcur
    {
      && la != lb && la.Length == lb.Length
      && P().Valid() && P().Fits(consumed)
      && consumed == |stream| && cbufBase <= chunkStart <= consumed
      && cbuf == stream[cbufBase..]
      && bcur <= |bounds|
    }

    // Enough bytes precede `from` and the frontier for a window that ends there.
    ghost predicate LeadIn(from: nat)
      reads `cbufBase, `hashedTo
    {
      cbufBase == 0 || (cbufBase + window <= from + 1 && cbufBase + window <= hashedTo + 1)
    }

    // No window end is evaluated twice, and none beyond the frontier.
    ghost predicate EvaluatedOnce()
      reads `evaluated, `hashedTo
    {
      Ascending(evaluated) && forall i :: 0 <= i < |evaluated| ==> evaluated[i] < hashedTo
    }

    ghost predicate Ready(from: nat)
      reads `la, `lb, `stream, `consumed, `cbuf, `cbufBase, `chunkStart, `bounds, `bcur, `hashedTo, `evaluated
    {
      && Buffered() && LeadIn(from) && EvaluatedOnce()
      && QueueOk(P(), stream, bounds, bcur, chunkStart, from, hashedTo)
    }

    // Without a forced cut the frontier never falls behind the chunk: no byte before it is left to hash.
    ghost predicate Level()
      reads `done, `chunkStart, `hashedTo
    {
      max == MAX_INT && !done ==> min > 0 || chunkStart <= hashedTo
    }

    ghost predicate Valid()
      reads `la, `lb, `stream, `consumed, `cbuf, `cbufBase, `chunkStart, `bounds, `bcur, `hashedTo, `evaluated, `done
    {
      Ready(chunkStart) && Level()
    }

    // What is pending: of the bytes behind the start of the chunk and far enough from it, up to the frontier,
    // exactly the hits, though the bytes skipped before them were never hashed.
    lemma {:induction false} PendingExactly(e: nat)
      requires Valid() && chunkStart <= e < hashedTo && chunkStart + min <= e + 1
      ensures e in bounds[bcur..] <==> Hit(P(), stream, e)
    {
    }

    constructor (h: Scheme, window: nat, mask: Word, min: nat, max: nat, batchSize: nat)
      requires Params(h, window, mask, min, max, batchSize).Valid()
      requires Params(h, window, mask, min, max, batchSize).Fits(0)
      ensures Valid() && fresh(Repr())
      ensures this.h == h && P() == Params(h, window, mask, min, max, batchSize)
      ensures View() == ChunkSpec.View([], 0, false, false, []) && calls == []
      ensures consumed == 0 && cbuf == [] && bounds == [] && hashedTo == 0
      ensures UpToDate() && (window <= batchSize ==> Synced()) && Outline() == START
      ensures Current() == Chunk(0, [], false, 0)
    {
      this.h, this.window, this.mask, this.min, this.max, this.batchSize := h, window, mask, min, max, batchSize;
      la, lb := new Int32[0], new Int32[0];
      cbuf, cbufBase, chunkStart, consumed, bounds, bcur, hashedTo := [], 0, 0, 0, [], 0, 0;
      eof, done, chunk, sumv, contentDefined, offset := false, false, [], 0, false, 0;
      stream, emitted, evaluated, calls := [], [], [], [];
    }

    // No current chunk.
    method Clear()
      modifies `chunk, `sumv, `contentDefined, `offset
      ensures Current() == Chunk(0, [], false, 0)
    {
      chunk, sumv, contentDefined, offset := [], 0, false, 0;
    }

    // Back to offset 0, with nothing fed.
    method Rewind()
      requires Ready(chunkStart)
      modifies `cbuf, `cbufBase, `chunkStart, `consumed, `bounds, `bcur, `hashedTo, `stream, `evaluated
      ensures cbuf == [] && cbufBase == 0 && chunkStart == 0 && consumed == 0
      ensures bounds == [] && bcur == 0 && hashedTo == 0 && stream == [] && evaluated == []
      ensures Ready(0)
    {
      hide QueueOk, Params.Valid;
      QueueEmpty(P());
      cbuf, cbufBase, chunkStart, consumed, bounds, bcur, hashedTo := [], 0, 0, 0, [], 0, 0;
      stream, evaluated := [], [];
    }

    method Reset()
      requires Valid()
      modifies this
      ensures Valid() && Repr() == old(Repr())
      ensures View() == ChunkSpec.View([], 0, false, false, []) && calls == []
      ensures consumed == 0 && cbuf == [] && bounds == [] && hashedTo == 0
      ensures UpToDate() && (window <= batchSize ==> Synced()) && Outline() == START
      ensures Current() == Chunk(0, [], false, 0)
    {
      hide Ready, Params.Valid;
      Rewind();
      eof, done, emitted, calls := false, false, [], [];
      Clear();
    }

    method Finish()
      requires Valid()
      modifies `eof
      ensures Valid() && View() == old(View()).(eof := true) && Left() == old(Left()) && (old(Synced()) ==> Synced())
      ensures Outline() == old(Outline()).(view := View())
    {
      eof := true;
    }

    method SkipPreMin(ghost from: nat)
      requires Ready(from)
      modifies `hashedTo
      ensures Ready(from) && hashedTo == Max(old(hashedTo), chunkStart + min - 1)
    {
      var skip := chunkStart + min - 1;
      if skip > hashedTo {
        QueueSkipped(P(), stream, bounds, bcur, chunkStart, from, hashedTo, skip);
        hashedTo := skip;
      }
    }

    // Drops the boundaries the queue has passed.
    method DropBounds()
      requires Valid()
      modifies `bounds, `bcur
      ensures Valid() && bounds == old(bounds[bcur..]) && bcur == 0
    {
      hide QueueOk, LeadIn, EvaluatedOnce, Params.Valid, Params.Fits;
      if bcur > 0 {
        QueueDropped(P(), stream, bounds, bcur, chunkStart, hashedTo);
        bounds := bounds[bcur..];
        bcur := 0;
      }
    }

    method Compact()
      requires Valid()
      modifies `hashedTo, `cbuf, `cbufBase, `bounds, `bcur
      ensures Valid()
      ensures hashedTo == Max(old(hashedTo), chunkStart + min - 1)
      ensures cbufBase == Max(old(cbufBase), Min(chunkStart, hashedTo) - (window - 1))
      ensures bounds == old(bounds[bcur..]) && bcur == 0
    {
      hide QueueOk, EvaluatedOnce, Scheme.Takes;
      SkipPreMin(chunkStart);
      var keepFrom := Max(Min(chunkStart, hashedTo) - (window - 1), 0);
      var drop := keepFrom - cbufBase;
      if drop > 0 {
        cbuf := cbuf[drop..];
        cbufBase := keepFrom;
      }
      DropBounds();
    }

    method Feed(newBytes: seq<Byte>)
      requires Valid() && !eof && P().Fits(consumed + |newBytes|)
      modifies `hashedTo, `cbuf, `cbufBase, `bounds, `bcur, `consumed, `stream
      ensures Valid()
      ensures View() == old(View()).(stream := old(stream) + newBytes) && consumed == old(consumed) + |newBytes|
      ensures Left() <= old(Left()) + 2 * |newBytes| && Outline() == FedState(P(), old(Outline()), newBytes)
      ensures hashedTo == Max(old(hashedTo), chunkStart + min - 1)
      ensures bounds == old(bounds[bcur..]) && bcur == 0
      ensures old(consumed) < chunkStart + max ==> |cbuf| <= max + window - 1 + |newBytes|
      ensures old(UpToDate() && (consumed == 0 || window <= consumed)) && Max(window, |newBytes|) <= batchSize
        ==> Synced()
    {
      hide QueueOk, EvaluatedOnce, LeadIn, Params.Fits, Params.Valid;
      Compact();
      Append(newBytes);
    }

    method Append(newBytes: seq<Byte>)
      requires Valid() && P().Fits(consumed + |newBytes|)
      modifies `cbuf, `consumed, `stream
      ensures Valid()
      ensures stream == old(stream) + newBytes && consumed == old(consumed) + |newBytes|
    {
      hide QueueOk;
      QueueFed(P(), stream, newBytes, bounds, bcur, chunkStart, hashedTo);
      cbuf := cbuf + newBytes;
      consumed := consumed + |newBytes|;
      stream := stream + newBytes;
    }

    // Runs BatchBoundaries over buf, into buffers grown to one slot per window.
    method FindBoundaries(buf: seq<Byte>) returns (na: nat, nb: nat)
      requires P().Valid() && la != lb && la.Length == lb.Length
      requires window <= |buf| < batchSize + window
      modifies `la, `lb, la, lb
      ensures la != lb && la.Length == lb.Length && na <= la.Length && nb <= lb.Length
      ensures fresh(Repr() - old(Repr()))
      ensures la[..na] + lb[..nb] == Hits(h.Sums(buf, window), mask, 0, |buf| - window + 1)
    {
      hide Scheme.Takes, Hits;
      var need := |buf| - window + 1;
      if la.Length < need {
        la := new Int32[need];
        lb := new Int32[need];
      }
      var digest := New(h);
      na, nb := digest.BatchBoundaries(la, lb, buf, window, mask);
    }

    // Appends what BatchBoundaries reported, as stream offsets.
    method Record(na: nat, nb: nat, shift: nat)
      requires na <= la.Length && nb <= lb.Length
      requires forall x :: x in la[..na] + lb[..nb] ==> x >= 0
      modifies `bounds
      ensures bounds == old(bounds) + Shifted(la[..na] + lb[..nb], shift)
    {
      ghost var gs := la[..na] + lb[..nb];
      for i := 0 to na
        invariant bounds == old(bounds) + Shifted(gs[..i], shift)
      {
        assert gs[i] in gs;
        bounds := bounds + [la[i] + shift];
      }
      for i := 0 to nb
        invariant bounds == old(bounds) + Shifted(gs[..na + i], shift)
      {
        assert gs[na + i] in gs;
        bounds := bounds + [lb[i] + shift];
      }
      assert gs[..na + nb] == gs;
    }

    // Hashes the buffered slice [bufStart, end) and moves the frontier to its end.
    method HashSlice(bufStart: nat, end: nat, ghost from: nat)
      requires Ready(from) && from <= hashedTo < end <= consumed && end <= hashedTo + batchSize
      requires cbufBase <= bufStart && bufStart + window <= end
      requires bufStart + window == hashedTo + 1 || (bufStart == 0 && hashedTo < window)
      modifies `la, `lb, la, lb, `hashedTo, `bounds, `evaluated
      ensures Ready(from) && fresh(Repr() - old(Repr())) && hashedTo == end
      ensures evaluated == old(evaluated) + Ends(Max(old(hashedTo), window - 1), end)
      ensures old(bounds) <= bounds && forall i :: |old(bounds)| <= i < |bounds| ==> old(hashedTo) <= bounds[i]
      ensures bounds != old(bounds) <==> HitIn(P(), stream, old(hashedTo), end)
    {
      hide QueueOk, HitIn, Hits, Shifted, Scheme.Sums, Ends, Ascending, Scheme.Takes, Params.Fits;
      var buf := cbuf[bufStart - cbufBase..end - cbufBase];
      SliceOfSlice(stream, cbufBase, consumed, bufStart - cbufBase, end - cbufBase);
      assert stream[cbufBase..consumed] == cbuf;
      var na, nb := FindBoundaries(buf);
      ghost var gs := la[..na] + lb[..nb];
      ghost var more := Shifted(gs, bufStart + window - 1);
      Forwarded(P(), stream, bounds, bcur, chunkStart, from, hashedTo, bufStart, end, gs, more);
      Record(na, nb, bufStart + window - 1);
      EndsAscend(evaluated, hashedTo, Max(hashedTo, window - 1), end);
      evaluated := evaluated + Ends(Max(hashedTo, window - 1), end);
      hashedTo := end;
    }

    method HashForward(ghost from: nat) returns (progress: bool)
      requires Ready(from) && from <= Max(hashedTo, chunkStart + min - 1)
      modifies `la, `lb, la, lb, `hashedTo, `bounds, `evaluated
      ensures Ready(from) && fresh(Repr() - old(Repr()))
      ensures HashStep(P(), stream, progress, Max(old(hashedTo), chunkStart + min - 1), hashedTo,
                       old(bounds), bounds, old(evaluated), evaluated)
    {
      hide QueueOk, HitIn, Ends;
      SkipPreMin(from);
      if hashedTo >= consumed { return false; }

      var lead := Min(window - 1, hashedTo - cbufBase);
      var bufStart := hashedTo - lead;
      var end := Min(hashedTo + batchSize, consumed);
      if end - bufStart < window { return false; }

      HashSlice(bufStart, end, from);
      return true;
    }

    // The loop that drives HashForward before the queue is scanned.
    method HashAhead(minByte: int, hashLimit: nat, ghost from: nat)
      requires Ready(from) && from <= Max(hashedTo, chunkStart + min - 1)
      requires minByte == chunkStart + min - 1 && hashLimit == if max == MAX_INT then MAX_INT else chunkStart + max
      modifies `la, `lb, la, lb, `hashedTo, `bounds, `evaluated
      ensures Ready(from) && fresh(Repr() - old(Repr()))
      ensures HashedAhead(P(), consumed, chunkStart, old(hashedTo), hashedTo, old(bounds), bounds)
      ensures hashedTo == LoopEnd(P(), stream, chunkStart, old(hashedTo), old(bounds))
    {
      hide LoopEnd;
      hide QueueOk, Ends, HashStep, HashedAhead, AheadSoFar, Candidate;
      ghost var h0, before := hashedTo, bounds;
      AheadStart(P(), consumed, chunkStart, h0, before);
      while hashedTo < hashLimit
        invariant Ready(from) && fresh(Repr() - old(Repr()))
        invariant from <= Max(hashedTo, chunkStart + min - 1)
        invariant AheadSoFar(P(), consumed, chunkStart, h0, hashedTo, before, bounds)
        invariant LoopEnd(P(), stream, chunkStart, h0, before) == LoopEnd(P(), stream, chunkStart, hashedTo, bounds)
        decreases consumed - hashedTo
      {
        ghost var h1, mid, ev := hashedTo, bounds, evaluated;
        LastIsCandidate(P(), chunkStart, bounds);
        var n := |bounds|;
        if n > 0 && bounds[n - 1] >= minByte {
          LoopOver(P(), stream, chunkStart, hashedTo, bounds);
          AheadDone(P(), consumed, chunkStart, h0, hashedTo, before, bounds);
          return;
        }
        var more := HashForward(from);
        AheadStep(P(), stream, chunkStart, h0, h1, hashedTo, before, mid, bounds, more, ev, evaluated);
        LoopStep(P(), stream, chunkStart, h1, hashedTo, mid, bounds, more, ev, evaluated);
        if !more { return; }
      }
      FrontierFits(P(), stream, bounds, bcur, chunkStart, from, hashedTo);
      LoopOver(P(), stream, chunkStart, hashedTo, bounds);
      AheadDone(P(), consumed, chunkStart, h0, hashedTo, before, bounds);
    }

    // The checksum of the window ending at byte e, recomputed from the buffered bytes.
    method SumAt(e: nat) returns (v: Word)
      requires Buffered() && e < consumed && (cbufBase == 0 || cbufBase + window <= e + 1)
      ensures v == WindowSum(P(), stream, e)
    {
      var start := e - window + 1;
      if start < cbufBase { return 0; }
      var off := start - cbufBase;
      assert cbuf[off..off + window] == stream[e + 1 - window..e + 1];
      v := Checksum(h, cbuf[off..off + window]);
    }

    // The buffered bytes [lo, hi) of the stream.
    method BytesBetween(lo: nat, hi: nat) returns (bytes: seq<Byte>)
      requires Buffered() && cbufBase <= lo <= hi <= consumed
      ensures bytes == stream[lo..hi]
    {
      SliceOfSlice(stream, cbufBase, consumed, lo - cbufBase, hi - cbufBase);
      assert stream[cbufBase..consumed] == cbuf;
      bytes := cbuf[lo - cbufBase..hi - cbufBase];
    }

    // Sets the accessors to the chunk that ends at byte e.
    method Report(e: nat, cd: bool)
      requires Buffered() && chunkStart <= e + 1 <= consumed && (cbufBase == 0 || cbufBase + window <= e + 1)
      modifies `chunk, `offset, `sumv, `contentDefined
      ensures contentDefined == cd && Current() == ChunkAt(P(), stream, chunkStart, Cut(e, cd))
    {
      hide WindowSum, Params.Valid, Params.Fits;
      chunk := BytesBetween(chunkStart, e + 1);
      sumv := SumAt(e);
      offset := chunkStart;
      contentDefined := cd;
    }

    // Records the chunk that ends at byte e and moves past it.
    method Emit(e: nat, cd: bool)
      requires Buffered() && chunkStart <= e + 1 <= consumed && (cbufBase == 0 || cbufBase + window <= e + 1)
      modifies `chunk, `offset, `sumv, `contentDefined, `chunkStart, `emitted
      ensures Buffered() && chunkStart == e + 1 && contentDefined == cd
      ensures Current() == ChunkAt(P(), stream, old(chunkStart), Cut(e, cd))
      ensures emitted == old(emitted) + [Current()]
    {
      hide ChunkAt, Current, Params.Valid, Params.Fits;
      Report(e, cd);
      chunkStart := e + 1;
      emitted := emitted + [Current()];
    }

    // ----- what next answers

    // The break at a recorded boundary is taken although the queue is used up: nothing more is hashed.
    ghost predicate Stale()
      reads this
    {
      bcur == |bounds| && Candidate(P(), chunkStart, bounds)
    }

    // The batch is too small to reach a first full window from here.
    ghost predicate Blocked()
      reads this
    {
      Max(hashedTo, chunkStart + min - 1) + batchSize < window
    }

    // Hits from here on go unseen by the next call.
    ghost function Horizon(): nat
      reads this
      ensures Horizon() == if Stale() || Blocked() then hashedTo else |stream|
    {
      HorizonOf(P(), stream, bounds, bcur, chunkStart, hashedTo)
    }

    // The byte the next call scans from: with no minimum, one still unhashed byte before the chunk is in play.
    ghost function From(): (from: nat)
      reads `hashedTo, `chunkStart
      ensures from <= chunkStart <= from + 1
    {
      if min == 0 && hashedTo < chunkStart then chunkStart - 1 else chunkStart
    }

    // The next call.
    ghost function Ahead(): Call
      reads this
    {
      Call(View(), From(), Horizon())
    }

    ghost predicate CutHere()
      reads `bcur, `bounds, `chunkStart
    {
      CutAt(P(), bounds, bcur, chunkStart)
    }

    // All that what comes next depends on.
    ghost function Outline(): State
      reads `stream, `chunkStart, `eof, `done, `emitted, `hashedTo, `bounds, `bcur
    {
      State(View(), hashedTo, CutHere())
    }

    lemma {:induction false} CandidateMeans()
      requires Valid()
      ensures Candidate(P(), chunkStart, bounds) <==> Stops(P(), Outline())
      ensures LoopEnd(P(), stream, chunkStart, hashedTo, bounds) == FrontierAfter(P(), Outline())
    {
    }

    lemma {:induction false} CallMeans()
      requires Valid()
      ensures Ahead() == CallAt(P(), Outline())
    {
    }

    // Bounds the chunks still to come from the bytes fed so far. Only with no minimum and a maximum of one byte can
    // an empty chunk come after every byte; otherwise the cuts of bytes make up for it.
    ghost function Left(): nat
      requires chunkStart <= consumed
      reads `consumed, `chunkStart, `done, `hashedTo
    {
      (if min == 0 && max == 1 then 2 * (consumed - chunkStart) else consumed - chunkStart) + Behind()
    }

    // One if an unhashed byte before the chunk is in play.
    ghost function Behind(): nat
      reads `done, `hashedTo, `chunkStart
    {
      if !done && From() < chunkStart then 1 else 0
    }

    // No more than a batch is left unhashed, none if a boundary is recorded, and the chunk starts behind the frontier.
    ghost predicate Synced()
      reads `consumed, `hashedTo, `bounds, `chunkStart
    {
      && window <= batchSize && consumed <= hashedTo + batchSize
      && (bounds == [] || consumed <= hashedTo)
      && (chunkStart <= hashedTo || chunkStart < window)
    }

    // Where a decision comes from: a boundary just taken off, the length limit, or too few bytes for either.
    ghost predicate Chosen(d: Decision, h0: nat)
      reads this
    {
      match d
      case Cut(e, true) =>
        0 < bcur <= |bounds| && bounds[bcur - 1] == e < hashedTo && (hashedTo == h0 || hashedTo <= e + batchSize)
      case Cut(e, false) => max != MAX_INT && e + 1 == chunkStart + max
      case Exhausted => max == MAX_INT || consumed < chunkStart + max
    }

    // Synced, the cut at d made.
    ghost predicate SyncedWith(d: Decision)
      reads this
    {
      && window <= batchSize && consumed <= hashedTo + batchSize
      && (bounds == [] || consumed <= hashedTo)
      && (d.Cut? ==> d.end + 1 <= hashedTo || d.end + 1 < window)
      && (d.Exhausted? ==> consumed <= hashedTo || consumed < window)
    }

    lemma {:induction false} KeepsSynced(d: Decision, h0: nat, before: seq<nat>)
      requires HashedAhead(P(), consumed, chunkStart, h0, hashedTo, before, bounds) && Chosen(d, h0)
      requires chunkStart <= consumed <= MAX_INT && (d.Cut? ==> d.end < consumed)
      requires window <= batchSize && consumed <= h0 + batchSize && (before == [] || consumed <= h0)
      ensures SyncedWith(d)
    {
      hide HashedAhead;
      FrontierGrows(P(), consumed, chunkStart, h0, hashedTo, before, bounds);
      StaysSynced(P(), consumed, chunkStart, h0, hashedTo, before, bounds, d);
    }

    // Scans the queue once enough is hashed: the first boundary in range, the forced cut at max, or neither.
    method Select(minByte: int, maxByte: nat, ghost from: nat, ghost before: seq<nat>, ghost h0: nat)
      returns (d: Decision)
      requires Buffered() && minByte == chunkStart + min - 1
      requires maxByte == if max == MAX_INT then MAX_INT else chunkStart + max - 1
      requires QueueOk(P(), stream, before, bcur, chunkStart, chunkStart, h0)
      requires HashedAhead(P(), consumed, chunkStart, h0, hashedTo, before, bounds)
      requires QueueOk(P(), stream, bounds, bcur, chunkStart, from, hashedTo)
      modifies `bcur
      ensures bcur <= |bounds|
      ensures d == Scan(P(), stream, chunkStart, from, HorizonOf(P(), stream, before, old(bcur), chunkStart, h0))
      ensures Chosen(d, h0)
      ensures min == 0 ==> bcur == old(bcur) + if d.Cut? && d.contentDefined then 1 else 0
      ensures d.Cut? && !d.contentDefined && min == 0 && bcur > 0 ==> bounds[bcur - 1] < chunkStart
      ensures if d.Cut? then QueueOk(P(), stream, bounds, bcur, d.end + 1, d.end + 1, hashedTo)
              else bcur == |bounds| && QueueOk(P(), stream, bounds, bcur, chunkStart, chunkStart, hashedTo)
    {
      hide QueueOk, Scan, HashedAhead, HorizonOf, Scheme.Takes;
      while bcur < |bounds|
        invariant old(bcur) <= bcur <= |bounds|
        invariant QueueOk(P(), stream, bounds, bcur, chunkStart, from, hashedTo)
        invariant forall i :: old(bcur) <= i < bcur ==> bounds[i] < minByte
        invariant min == 0 ==> bcur == old(bcur)
      {
        var e := bounds[bcur];
        if e >= minByte { break; }
        QueueSkipsShort(P(), stream, bounds, bcur, chunkStart, from, hashedTo);
        QueueAhead(P(), stream, bounds, bcur, chunkStart, from, hashedTo);
        bcur := bcur + 1;
      }
      Selected(P(), stream, before, old(bcur), bounds, bcur, chunkStart, from, h0, hashedTo);
      if bcur < |bounds| && bounds[bcur] <= maxByte {
        QueueTaken(P(), stream, bounds, bcur, chunkStart, from, hashedTo);
        d := Cut(bounds[bcur], true);
        bcur := bcur + 1;
      } else if consumed - 1 >= maxByte {
        d := Cut(maxByte, false);
        QueueUsed(P(), stream, bounds, bcur, chunkStart, from, hashedTo);
        QueueCut(P(), stream, bounds, bcur, chunkStart, from, hashedTo, maxByte);
      } else {
        d := Exhausted;
        QueueDone(P(), stream, bounds, chunkStart, from, hashedTo);
      }
    }

    // All is in order for the decision to be acted on.
    ghost predicate Decided(d: Decision, h0: nat)
      reads this
    {
      && Buffered() && EvaluatedOnce() && LeadIn(chunkStart) && Chosen(d, h0)
      && (d.Cut? ==> chunkStart <= d.end + 1 <= consumed && LeadIn(d.end)) && (d.Exhausted? ==> Level())
      && (d.Cut? && !d.contentDefined && min == 0 && 0 < bcur ==> bounds[bcur - 1] < chunkStart)
      && if d.Cut? then QueueOk(P(), stream, bounds, bcur, d.end + 1, d.end + 1, hashedTo)
         else bcur == |bounds| && QueueOk(P(), stream, bounds, bcur, chunkStart, chunkStart, hashedTo)
    }

    lemma {:induction false} DecidedFrom(d: Decision, from: nat, horizon: nat, h0: nat)
      requires Buffered() && EvaluatedOnce() && LeadIn(from) && from <= chunkStart <= from + 1 && Level()
      requires d == Scan(P(), stream, chunkStart, from, horizon) && Chosen(d, h0)
      requires d.Cut? && !d.contentDefined && min == 0 && bcur > 0 ==> bounds[bcur - 1] < chunkStart
      requires if d.Cut? then QueueOk(P(), stream, bounds, bcur, d.end + 1, d.end + 1, hashedTo)
               else bcur == |bounds| && QueueOk(P(), stream, bounds, bcur, chunkStart, chunkStart, hashedTo)
      ensures Decided(d, h0)
    {
      hide QueueOk, Scan, EvaluatedOnce, Chosen;
    }

    // Hashes ahead, then scans the queue.
    method Decide() returns (d: Decision)
      requires Valid()
      modifies `la, `lb, la, lb, `hashedTo, `bounds, `evaluated, `bcur
      ensures Decided(d, old(hashedTo)) && fresh(Repr() - old(Repr()))
      ensures d == Scan(P(), stream, chunkStart, old(From()), old(Horizon()))
      ensures old(Synced()) ==> SyncedWith(d)
      ensures HashedAhead(P(), consumed, old(chunkStart), old(hashedTo), hashedTo, old(bounds), bounds)
      ensures hashedTo == old(FrontierAfter(P(), Outline()))
      ensures d.Exhausted? ==> CutHere() == old(CutHere())
    {
      hide QueueOk, Scan, HashedAhead, HorizonOf, Chosen, SyncedWith, FrontierAfter, LoopEnd, HashOn;
      hide Decided, EvaluatedOnce, CutAt, Scheme.Takes;
      CandidateMeans();
      var minByte := chunkStart + min - 1;
      var maxByte := if max == MAX_INT then MAX_INT else chunkStart + max - 1;
      var hashLimit := maxByte;
      if hashLimit != MAX_INT { hashLimit := hashLimit + 1; }
      ghost var from, before, h0 := From(), bounds, hashedTo;
      if from < chunkStart { QueueBehind(P(), stream, bounds, bcur, chunkStart, hashedTo); }
      HashAhead(minByte, hashLimit, from);
      FrontierGrows(P(), consumed, chunkStart, h0, hashedTo, before, bounds);
      ghost var horizon := HorizonOf(P(), stream, before, bcur, chunkStart, h0);
      d := Select(minByte, maxByte, from, before, h0);
      DecidedFrom(d, from, horizon, h0);
      if d.Exhausted? { CutStays(P(), before, bounds, old(bcur), bcur, chunkStart); }
      if old(Synced()) {
        KeepsSynced(d, h0, before);
      }
    }

    // At the end of the stream: whatever is left is the final chunk.
    method Flush() returns (r: CoreState)
      requires Ready(chunkStart) && eof && bcur == |bounds|
      modifies `done, `chunk, `offset, `sumv, `contentDefined, `chunkStart, `emitted
      ensures Valid()
      ensures (r, View()) == Conclude(P(), old(View()), Exhausted)
      ensures Reported(r, old(emitted), old(Current())) && (r == Emitted ==> !contentDefined)
      ensures old(SyncedWith(Exhausted)) ==> Synced()
      ensures r != Emitted ==> chunkStart == old(chunkStart)
      ensures r == Emitted ==> chunkStart == consumed > old(chunkStart)
    {
      hide QueueOk, ChunkAt, WindowSum, Ascending, Scheme.Takes, Params.Fits;
      done := true;
      if chunkStart < consumed {
        QueueCut(P(), stream, bounds, bcur, chunkStart, chunkStart, hashedTo, consumed - 1);
        Emit(consumed - 1, false);
        return Emitted;
      }
      Clear();
      return CoreDone;
    }

    // Acts on a decision: a chunk, the final chunk, nothing yet or nothing more.
    method Act(d: Decision, ghost h0: nat) returns (r: CoreState)
      requires Decided(d, h0)
      modifies `done, `chunk, `offset, `sumv, `contentDefined, `chunkStart, `emitted
      ensures Valid()
      ensures (r, View()) == Conclude(P(), old(View()), d)
      ensures Reported(r, old(emitted), old(Current()))
      ensures old(SyncedWith(d)) ==> Synced() && (r == NeedMore ==> UpToDate())
      ensures r == Emitted && contentDefined ==> JustCut(h0)
      ensures r == NeedMore ==> max == MAX_INT || consumed < chunkStart + max
      ensures old(chunkStart) <= chunkStart <= consumed && (r != Emitted ==> chunkStart == old(chunkStart))
      ensures r == Emitted && chunkStart == old(chunkStart) ==> contentDefined && d.Cut? && d.end + 1 == chunkStart
      ensures r == Emitted && !contentDefined && !done ==> chunkStart == old(chunkStart) + max
      ensures r == Emitted && done && !old(done) ==> old(chunkStart) < chunkStart
      ensures CutHere() == if r == Emitted then min == 0 && contentDefined else old(CutHere())
      ensures r != Emitted ==> d.Exhausted?
    {
      hide QueueOk, ChunkAt, WindowSum, Ascending, Scheme.Takes, Params.Fits;
      if d.Cut? {
        Emit(d.end, d.contentDefined);
        return Emitted;
      }
      if eof {
        QueueUsed(P(), stream, bounds, bcur, chunkStart, chunkStart, hashedTo);
        r := Flush();
        return;
      }
      return NeedMore;
    }

    // The accessors after a call of next: the new chunk, nothing, or what they were.
    ghost predicate Reported(r: CoreState, emitted0: seq<Chunk>, current0: Chunk)
      reads `emitted, `offset, `chunk, `contentDefined, `sumv
    {
      match r
      case Emitted => emitted == emitted0 + [Current()]
      case CoreDone => emitted == emitted0 && Current() == Chunk(0, [], false, 0)
      case NeedMore => emitted == emitted0 && Current() == current0
    }

    // The chunk just emitted ended at the last boundary taken off, found no more than a batch before the frontier
    // (or without hashing at all).
    ghost predicate JustCut(h0: nat)
      reads `bounds, `bcur, `chunkStart, `hashedTo
    {
      && 0 < bcur <= |bounds| && bounds[bcur - 1] + 1 == chunkStart <= hashedTo
      && (hashedTo == h0 || hashedTo < chunkStart + batchSize)
    }

    // After such a cut no byte before the chunk is in play.
    lemma {:induction false} CutAhead(h0: nat)
      requires JustCut(h0)
      ensures From() == chunkStart
    {
    }

    // Every window the buffered bytes can form has been hashed, and every boundary used.
    ghost predicate UpToDate()
      reads `bounds, `bcur, `consumed, `hashedTo
    {
      bcur == |bounds| && (consumed <= hashedTo || consumed < window)
    }

    // What Next does, apart from the record of its calls.
    method Attempt() returns (r: CoreState)
      requires Valid()
      modifies `la, `lb, la, lb, `hashedTo, `bounds, `evaluated, `bcur
      modifies `done, `chunk, `offset, `sumv, `contentDefined, `chunkStart, `emitted
      ensures Valid() && fresh(Repr() - old(Repr()))
      ensures (r, View()) == Advance(P(), old(View()), old(From()), old(Horizon()))
      ensures Reported(r, old(emitted), old(Current()))
      ensures old(Synced()) ==> Synced() && (r == NeedMore ==> UpToDate())
      ensures !old(done) ==> HashedAhead(P(), consumed, old(chunkStart), old(hashedTo), hashedTo, old(bounds), bounds)
      ensures r == Emitted && contentDefined ==> JustCut(old(hashedTo))
      ensures r == NeedMore ==> max == MAX_INT || consumed < chunkStart + max
      ensures old(chunkStart) <= chunkStart <= consumed && old(hashedTo) <= hashedTo
      ensures r == Emitted && chunkStart == old(chunkStart) ==> contentDefined && !done && old(From()) < chunkStart
      ensures r == Emitted && !contentDefined && !done ==> chunkStart == old(chunkStart) + max
      ensures r == Emitted ==> !old(done)
      ensures hashedTo == if old(done) then old(hashedTo) else old(FrontierAfter(P(), Outline()))
      ensures CutHere() == if r == Emitted then min == 0 && contentDefined else old(CutHere())
      ensures r != Emitted ==> chunkStart == old(chunkStart)
    {
      hide QueueOk, Scan, JustCut, HashedAhead, Conclude, Ascending;
      hide Chosen, SyncedWith, UpToDate, HorizonOf, Stale, Candidate, FrontierAfter, CutHere;
      hide LeadIn, EvaluatedOnce, Scheme.Takes, Params.Fits;
      if done {
        Clear();
        return CoreDone;
      }
      var d := Decide();
      FrontierGrows(P(), consumed, chunkStart, old(hashedTo), hashedTo, old(bounds), bounds);
      r := Act(d, old(hashedTo));
    }

    method Next() returns (r: CoreState)
      requires Valid()
      modifies Repr()
      ensures Valid() && fresh(Repr() - old(Repr()))
      ensures (r, View()) == Advance(P(), old(View()), old(From()), old(Horizon()))
      ensures Reported(r, old(emitted), old(Current()))
      ensures old(Synced()) ==> Synced() && (r == NeedMore ==> UpToDate())
      ensures !old(done) ==> HashedAhead(P(), consumed, old(chunkStart), old(hashedTo), hashedTo, old(bounds), bounds)
      ensures r == Emitted && contentDefined ==> JustCut(old(hashedTo))
      ensures r == NeedMore ==> max == MAX_INT || consumed < chunkStart + max
      ensures calls == old(calls) + [old(Ahead())]
      ensures Outline() == NextState(P(), old(Outline()))
      ensures cbuf == old(cbuf) && old(chunkStart) <= chunkStart <= consumed == old(consumed)
      ensures if r == Emitted then Left() < old(Left()) else Left() <= old(Left())
    {
      hide QueueOk, Scan, JustCut, HashedAhead, Conclude, Ascending, Advance;
      hide HorizonOf, Candidate, Hit, FrontierAfter, CutHere, CallAt, NextState, UpToDate, Synced;
      hide LeadIn, EvaluatedOnce, Scheme.Takes, Params.Fits;
      CallMeans();
      ghost var st, c := Outline(), Ahead();
      r := Attempt();
      NextMeans(P(), st, r, Outline());
      if r == Emitted && contentDefined { CutAhead(old(hashedTo)); }
      calls := calls + [c];
    }
  }
}
