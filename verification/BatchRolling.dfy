/** The batching core that turns a stream into runs of rolling checksums. */
module BatchRolling {
  import opened Words
  import opened Hashing
  import opened ChunkSpec
  import opened Chunking

  datatype Batch = Batch(offset: nat, bytes: seq<Byte>, sums: seq<Word>)

  datatype RollParams = RollParams(scheme: Scheme, window: nat, batchSize: nat) {
    ghost predicate Valid() {
      1 <= window <= batchSize && scheme.Takes(window)
    }
  }

  // The checksum of every window of s, in stream order; none if s holds no window.
  ghost function AllSums(p: RollParams, s: seq<Byte>): seq<Word>
    requires p.Valid()
  {
    if |s| < p.window then [] else p.scheme.Sums(s, p.window)
  }

  // The core as a machine: `next` is the first window position not yet rolled.
  datatype RollView = RollView(stream: seq<Byte>, next: nat, eof: bool, done: bool, batches: seq<Batch>)

  ghost function BatchAt(p: RollParams, s: seq<Byte>, at: nat): Batch
    requires p.Valid() && at + p.window <= |s|
  {
    var bytes := s[at..at + Min(|s| - at, p.batchSize)];
    Batch(at, bytes, AllSums(p, bytes))
  }

  ghost function RollNext(p: RollParams, v: RollView): (r: (CoreState, RollView))
    requires p.Valid()
    ensures r.1.stream == v.stream && r.1.eof == v.eof
  {
    if v.done then (CoreDone, v)
    else if v.next + p.window <= |v.stream| then
      var b := BatchAt(p, v.stream, v.next);
      (Emitted, v.(next := v.next + |b.sums|, batches := v.batches + [b],
                   done := v.eof && v.next + |b.bytes| == |v.stream|))
    else if v.eof then (CoreDone, v.(done := true))
    else (NeedMore, v)
  }

  class BatchRollerCore {
    const h: Scheme
    const window: nat
    const batchSize: nat

    var buf: seq<Byte>
    var carry: nat
    var prevN: nat

    var data: seq<Byte>
    var sums: seq<Word>
    var offset: nat
    var eof: bool
    var done: bool

    // What has been fed and emitted, and the first window position not yet rolled.
    ghost var stream: seq<Byte>
    ghost var batches: seq<Batch>
    ghost var rolled: nat

    function P(): RollParams {
      RollParams(h, window, batchSize)
    }

    ghost function View(): RollView
      reads this
    {
      RollView(stream, rolled, eof, done, batches)
    }

    ghost function Current(): Batch
      reads this
    {
      Batch(offset, data, sums)
    }

    // buf starts where the current batch does, or where the next one will when there is none.
    ghost predicate Valid()
      reads this
    {
      && P().Valid()
      && (!done ==>
           && offset <= |stream| && buf == stream[offset..] && prevN <= |buf|
           && (prevN > 0 ==> carry == window - 1 < prevN)
           && rolled == if prevN > 0 then offset + prevN - carry else offset)
    }

    constructor (h: Scheme, window: nat, batchSize: nat)
      requires RollParams(h, window, batchSize).Valid()
      ensures Valid() && P() == RollParams(h, window, batchSize) && View() == NOTHING && Current() == NO_BATCH
    {
      this.h, this.window, this.batchSize := h, window, batchSize;
      buf, carry, prevN, data, sums, offset, eof, done := [], 0, 0, [], [], 0, false, false;
      stream, batches, rolled := [], [], 0;
    }

    method Reset()
      requires Valid()
      modifies this
      ensures Valid() && View() == NOTHING && Current() == NO_BATCH
    {
      buf, carry, prevN, data, sums, offset, eof, done := [], 0, 0, [], [], 0, false, false;
      stream, batches, rolled := [], [], 0;
    }

    method Finish()
      requires Valid()
      modifies `eof
      ensures Valid() && eof
    {
      eof := true;
    }

    method Feed(newBytes: seq<Byte>)
      requires Valid() && !done
      modifies `buf, `stream
      ensures Valid() && stream == old(stream) + newBytes
    {
      buf := buf + newBytes;
      stream := stream + newBytes;
    }

    // Outside a batch the accessors say nothing.
    method Clear()
      modifies `data, `sums, `offset
      ensures Current() == NO_BATCH
    {
      data, sums, offset := [], [], 0;
    }

    // Advances past the new bytes of the previous batch and drops them.
    method DropPrevious()
      requires Valid() && !done
      modifies `offset, `buf, `prevN
      ensures Valid() && prevN == 0 && offset == rolled
    {
      if prevN > 0 {
        offset := offset + (prevN - carry);
        buf := buf[prevN - carry..];
        prevN := 0;
      }
    }

    // As many of the bytes as there are, up to a batch, and the checksum of each of their windows.
    method Load() returns (n: nat)
      requires Valid() && !done && prevN == 0 && window <= |buf|
      modifies `data, `sums
      ensures n == |data| == Min(|buf|, batchSize) && |buf| == |stream| - offset
      ensures data == stream[offset..offset + Min(|stream| - offset, batchSize)]
      ensures |sums| == |data| - window + 1
      ensures forall i :: 0 <= i < |sums| ==> sums[i] == h.Of(data[i..i + window])
      ensures Current() == BatchAt(P(), stream, offset)
    {
      hide BatchAt, Scheme.Sums, Scheme.Of;
      n := Min(|buf|, batchSize);
      SliceOfSlice(stream, offset, |stream|, 0, n);
      data := buf[..n];
      assert stream[offset..|stream|] == buf;
      sums := Roll(data);
      BatchIs(P(), stream, Current());
    }

    // The next batch, from the start of buf; the last one exactly if it ends a finished stream.
    method Emit()
      requires Valid() && !done && prevN == 0 && window <= |buf|
      modifies `data, `sums, `done, `carry, `prevN, `rolled, `batches
      ensures Valid() && batches == old(batches) + [Current()]
      ensures (Emitted, View()) == RollNext(P(), old(View())) && old(rolled) < rolled
      ensures offset == old(rolled) && data == stream[offset..offset + Min(|stream| - offset, batchSize)]
      ensures |sums| == |data| - window + 1 && rolled == offset + |sums|
      ensures forall i :: 0 <= i < |sums| ==> sums[i] == h.Of(data[i..i + window])
      ensures done <==> eof && offset + |data| == |stream|
    {
      hide BatchAt, Scheme.Of;
      var n := Load();
      if eof && n == |buf| {
        done := true;
        carry := 0;
      } else {
        carry := window - 1;
      }
      prevN := n;
      rolled := rolled + |sums|;
      batches := batches + [Current()];
    }

    method Next() returns (r: CoreState)
      requires Valid()
      modifies this
      ensures Valid() && (r, View()) == RollNext(P(), old(View()))
      ensures r == Emitted ==> batches == old(batches) + [Current()]
      ensures r == CoreDone ==> done && Current() == NO_BATCH
      ensures r == Emitted <==> !old(done) && old(rolled) + window <= |stream|
      ensures r == NeedMore <==> !old(done) && !eof && |stream| < old(rolled) + window
      ensures r == Emitted ==> offset == old(rolled)
      ensures r == Emitted ==> data == stream[offset..offset + Min(|stream| - offset, batchSize)]
      ensures r == Emitted ==> |sums| == |data| - window + 1 && rolled == offset + |sums|
      ensures r == Emitted ==> forall i :: 0 <= i < |sums| ==> sums[i] == h.Of(data[i..i + window])
      ensures r == Emitted ==> (done <==> eof && offset + |data| == |stream|)
      ensures r == NeedMore ==> !done && data == old(data) && sums == old(sums) && offset == rolled
      ensures if r == Emitted then old(rolled) < rolled && old(rolled) < |stream|
              else batches == old(batches) && rolled == old(rolled)
    {
      hide BatchAt;
      if done {
        Clear();
        return CoreDone;
      }
      DropPrevious();
      if |buf| < window {
        if eof {
          done := true;
          Clear();
          return CoreDone;
        }
        return NeedMore;
      }
      Emit();
      return Emitted;
    }

    // The checksums of all windows of bytes, through the hash's BatchRoll.
    method Roll(bytes: seq<Byte>) returns (sums: seq<Word>)
      requires 1 <= window <= |bytes| && h.Takes(window)
      ensures sums == h.Sums(bytes, window) && |sums| == |bytes| - window + 1
      ensures forall i :: 0 <= i < |sums| ==> sums[i] == h.Of(bytes[i..i + window])
    {
      var store := new Word[|bytes| - window + 1];
      var digest := New(h);
      digest.BatchRoll(store, bytes, window);
      sums := store[..];
    }
  }

  lemma {:induction false} BatchIs(p: RollParams, s: seq<Byte>, b: Batch)
    requires p.Valid() && b.offset + p.window <= |s|
    requires b.bytes == s[b.offset..b.offset + Min(|s| - b.offset, p.batchSize)]
    requires |b.bytes| >= p.window && b.sums == p.scheme.Sums(b.bytes, p.window)
    ensures b == BatchAt(p, s, b.offset)
  {
  }

  const NOTHING: RollView := RollView([], 0, false, false, [])
  const NO_BATCH: Batch := Batch(0, [], [])

  // ----- coverage

  ghost function SumsIn(bs: seq<Batch>): seq<Word> {
    if bs == [] then [] else SumsIn(bs[..|bs| - 1]) + bs[|bs| - 1].sums
  }

  // Every batch takes up at the window position where the one before ended, so the two share window - 1 bytes;
  // its sums are those of its own windows.
  ghost predicate Chained(p: RollParams, s: seq<Byte>, bs: seq<Batch>, next: nat)
    requires p.Valid()
  {
    if bs == [] then next == 0
    else
      var b := bs[|bs| - 1];
      && p.window <= |b.bytes| <= p.batchSize
      && b.offset + |b.bytes| <= |s| && b.bytes == s[b.offset..b.offset + |b.bytes|]
      && b.sums == AllSums(p, b.bytes)
      && b.offset + |b.bytes| == next + p.window - 1
      && Chained(p, s, bs[..|bs| - 1], b.offset)
  }

  ghost predicate RollOk(p: RollParams, v: RollView)
    requires p.Valid()
  {
    && Chained(p, v.stream, v.batches, v.next)
    && (v.done ==> v.eof && |v.stream| < v.next + p.window)
  }

  lemma {:induction false} SumsCount(p: RollParams, s: seq<Byte>)
    requires p.Valid()
    ensures |AllSums(p, s)| == if |s| < p.window then 0 else |s| - p.window + 1
  {
  }

  // The windows of a slice are windows of the stream.
  lemma {:induction false} SumsOfSlice(p: RollParams, s: seq<Byte>, at: nat, end: nat)
    requires p.Valid() && at + p.window <= end <= |s|
    ensures AllSums(p, s[at..end]) == AllSums(p, s)[at..end - p.window + 1]
  {
    var x, y := AllSums(p, s[at..end]), AllSums(p, s)[at..end - p.window + 1];
    assert |x| == |y|;
    forall i | 0 <= i < |x| ensures x[i] == y[i] {
      SliceOfSlice(s, at, end, i, i + p.window);
    }
  }

  lemma {:induction false} ChainExtends(p: RollParams, s: seq<Byte>, more: seq<Byte>, bs: seq<Batch>, next: nat)
    requires p.Valid() && Chained(p, s, bs, next)
    ensures Chained(p, s + more, bs, next)
    decreases |bs|
  {
    if bs != [] {
      var b := bs[|bs| - 1];
      assert (s + more)[b.offset..b.offset + |b.bytes|] == b.bytes;
      ChainExtends(p, s, more, bs[..|bs| - 1], b.offset);
    }
  }

  // The concatenated sums list every window position up to `next` once, in order.
  lemma {:induction false} ChainCovers(p: RollParams, s: seq<Byte>, bs: seq<Batch>, next: nat)
    requires p.Valid() && Chained(p, s, bs, next)
    ensures next <= |AllSums(p, s)| && SumsIn(bs) == AllSums(p, s)[..next]
    decreases |bs|
  {
    hide AllSums;
    SumsCount(p, s);
    if bs != [] {
      var b := bs[|bs| - 1];
      SumsCount(p, b.bytes);
      ChainCovers(p, s, bs[..|bs| - 1], b.offset);
      SumsOfSlice(p, s, b.offset, b.offset + |b.bytes|);
      assert AllSums(p, s)[..next] == AllSums(p, s)[..b.offset] + AllSums(p, s)[b.offset..next];
    }
  }
}
