/**
 What chunking means, without batching, queues or compaction: a boundary goes
 after the first byte whose window checksum meets the mask, subject to a chunk
 length in [min, max]; failing that at max; the rest of the stream is the last
 chunk.
 */
module ChunkSpec {
  import opened Words
  import opened Hashing

  const MAX_INT: nat := 0x7fff_ffff_ffff_ffff

  function Min(x: int, y: int): int { if x < y then x else y }
  function Max(x: int, y: int): int { if x < y then y else x }

  datatype Params = Params(scheme: Scheme, window: nat, mask: Word, min: nat, max: nat, batchSize: nat) {
    // What the chunker demands of its configuration: positions within a batch fit an int32, and the hash rolls
    // windows of that length. MAX_INT as max means no forced cut.
    ghost predicate Valid() {
      && 1 <= window && 1 <= max && 1 <= batchSize <= 0x8000_0000
      && scheme.Takes(window)
    }

    // Stream offsets up to n, extended by a batch, min or max, still fit an int.
    ghost predicate Fits(n: nat) {
      n + batchSize <= MAX_INT && n + min <= MAX_INT && (max == MAX_INT || n + max <= MAX_INT)
    }

    // Enough for the chunks to depend on the stream alone, whatever the schedule: every call sees every hit that
    // could be in range, or there is none to see.
    ghost predicate Sound() {
      1 <= min && (window < min + batchSize || max < min)
    }
  }

  datatype Chunk = Chunk(offset: nat, bytes: seq<Byte>, contentDefined: bool, sum: Word)

  datatype Decision = Cut(end: nat, contentDefined: bool) | Exhausted

  // The window ending at byte e exists and its checksum meets the mask.
  ghost predicate Hit(p: Params, s: seq<Byte>, e: int) {
    p.window <= e + 1 <= |s| && And(p.scheme.Of(s[e + 1 - p.window..e + 1]), p.mask) == 0
  }

  // The checksum reported for a cut after byte e: 0 when the stream holds no full window there.
  ghost function WindowSum(p: Params, s: seq<Byte>, e: int): Word
    requires e < |s|
  {
    if e + 1 < p.window then 0 else p.scheme.Of(s[e + 1 - p.window..e + 1])
  }

  // Byte by byte from e on: is this the last byte of the chunk that starts at start?
  // Only hits before the horizon are seen; the naive chunker sees all of them.
  ghost function Scan(p: Params, s: seq<Byte>, start: nat, e: nat, horizon: nat): (d: Decision)
    ensures d.Cut? ==> e <= d.end < |s|
    decreases |s| - e
  {
    if |s| <= e then Exhausted
    else if e < horizon && start + p.min <= e + 1 && Hit(p, s, e) then Cut(e, true)
    else if p.max != MAX_INT && start + p.max <= e + 1 then Cut(e, false)
    else Scan(p, s, start, e + 1, horizon)
  }

  ghost function ChunkAt(p: Params, s: seq<Byte>, start: nat, d: Decision): Chunk
    requires d.Cut? && start <= d.end + 1 <= |s|
  {
    Chunk(start, s[start..d.end + 1], d.contentDefined, WindowSum(p, s, d.end))
  }

  // The decision on a stream known to be complete: the rest is the final chunk.
  ghost function Final(p: Params, s: seq<Byte>, start: nat, d: Decision): (r: Decision)
    requires start < |s|
    ensures d.Cut? ==> r == d
    ensures r.Cut? && (d.Exhausted? ==> r.end == |s| - 1)
  {
    if d.Cut? then d else Cut(|s| - 1, false)
  }

  // The chunks of s from offset start on.
  ghost function Naive(p: Params, s: seq<Byte>, start: nat): seq<Chunk>
    decreases |s| - start
  {
    if |s| <= start then []
    else
      var d := Final(p, s, start, Scan(p, s, start, start, |s|));
      [ChunkAt(p, s, start, d)] + Naive(p, s, d.end + 1)
  }

  // ----- what the scan finds

  // e is a hit the chunk that starts at start would accept.
  ghost predicate InRange(p: Params, s: seq<Byte>, start: nat, e: int) {
    && start + p.min <= e + 1
    && (p.max == MAX_INT || e + 1 <= start + p.max)
    && Hit(p, s, e)
  }

  // Byte e lies past the longest chunk from start.
  ghost predicate PastMax(p: Params, start: nat, e: nat) {
    p.max != MAX_INT && start + p.max <= e
  }

  // Bytes that neither hit nor reach max do not end the chunk.
  lemma {:induction false} ScanSkips(p: Params, s: seq<Byte>, start: nat, e: nat, f: nat, horizon: nat)
    requires e <= f <= |s|
    requires forall g :: e <= g < f && g < horizon ==> !InRange(p, s, start, g)
    requires e < f ==> !PastMax(p, start, f)
    ensures Scan(p, s, start, e, horizon) == Scan(p, s, start, f, horizon)
    decreases f - e
  {
    if e < f {
      assert e < horizon ==> !InRange(p, s, start, e);
      ScanSkips(p, s, start, e + 1, f, horizon);
    }
  }

  // ----- the core as an abstract machine

  datatype CoreState = NeedMore | Emitted | CoreDone

  datatype View = View(stream: seq<Byte>, start: nat, eof: bool, done: bool, emitted: seq<Chunk>)

  // One attempt to advance: where the machine stood, the byte it scanned from and the horizon of the hits it saw.
  datatype Call = Call(before: View, from: nat, horizon: nat)

  // What becomes of a decision: a chunk, the final chunk, nothing yet or nothing more.
  ghost function Conclude(p: Params, v: View, d: Decision): (r: (CoreState, View))
    requires v.start <= |v.stream| && (d.Cut? ==> v.start <= d.end + 1 <= |v.stream|)
    ensures r.1.stream == v.stream && r.1.eof == v.eof && r.1.start <= |v.stream|
    ensures r.0 == NeedMore ==> !v.eof && r.1 == v
    ensures r.0 == CoreDone ==> r.1.done && v.eof
    ensures r.1.done ==> v.done || v.eof
  {
    if d.Cut? then
      (Emitted, v.(start := d.end + 1, emitted := v.emitted + [ChunkAt(p, v.stream, v.start, d)]))
    else if !v.eof then (NeedMore, v)
    else if v.start < |v.stream| then
      var last := Final(p, v.stream, v.start, d);
      (Emitted, v.(start := |v.stream|, done := true, emitted := v.emitted + [ChunkAt(p, v.stream, v.start, last)]))
    else (CoreDone, v.(done := true))
  }

  // One attempt to advance, scanning from byte `from` and seeing the hits below the horizon.
  ghost function Advance(p: Params, v: View, from: nat, horizon: nat): (r: (CoreState, View))
    requires from <= v.start <= |v.stream| && v.start <= from + 1
    ensures r.1.stream == v.stream && r.1.eof == v.eof && r.1.start <= |v.stream|
    ensures r.0 == NeedMore ==> !v.eof && r.1 == v
    ensures r.0 == CoreDone ==> r.1.done
    ensures r.1.done ==> v.done || v.eof
  {
    if v.done then (CoreDone, v) else Conclude(p, v, Scan(p, v.stream, v.start, from, horizon))
  }
}
