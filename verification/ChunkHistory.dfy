/** The calls that led to a state, and exactly when they were as good as those of the machine that sees every hit. */
module ChunkHistory {
  import opened Words
  import opened ChunkSpec
  import opened ChunkLaws

  // ----- one call

  // How a call can stand in any reachable state: with no minimum, and only where cuts are forced, it may scan from one
  // byte before the chunk; what it has seen behind the start of the chunk holds no hit in range unless it sees all.
  ghost predicate Placed(p: Params, c: Call) {
    var v := c.before;
    && v.start <= |v.stream| && (c.from == v.start || (c.from + 1 == v.start && p.min == 0))
    && (p.max == MAX_INT && !v.done ==> c.from == v.start)
    && forall g :: v.start <= g < c.horizon < |v.stream| ==> !InRange(p, v.stream, v.start, g)
  }

  ghost function Answer(p: Params, c: Call): (CoreState, View)
    requires Placed(p, c)
  {
    Advance(p, c.before, c.from, c.horizon)
  }

  // A hit just before the chunk is in sight.
  ghost predicate Early(p: Params, c: Call) {
    c.from < c.before.start && c.from < c.horizon && Hit(p, c.before.stream, c.from)
  }

  // A hit that is not seen, in range of the chunk, or one just before the chunk that is.
  ghost predicate Misled(p: Params, c: Call) {
    var v := c.before;
    Early(p, c) || exists e :: v.start <= e < |v.stream| && c.horizon <= e && InRange(p, v.stream, v.start, e)
  }

  lemma {:induction false} PastEnd(p: Params, s: seq<Byte>, start: nat, e: nat, horizon: nat)
    requires |s| <= horizon
    ensures Scan(p, s, start, e, horizon) == Scan(p, s, start, e, |s|)
    decreases |s| - e
  {
    if e < |s| { PastEnd(p, s, start, e + 1, horizon); }
  }

  // Where no hit is seen, the scan cuts at max or not at all.
  lemma {:induction false} BlindScan(p: Params, s: seq<Byte>, start: nat, e: nat, horizon: nat)
    requires start <= e <= |s| && p.max >= 1 && (e == start || !PastMax(p, start, e))
    requires forall g :: e <= g < horizon < |s| ==> !InRange(p, s, start, g)
    requires horizon < |s|
    ensures Scan(p, s, start, e, horizon) == if Reaches(p, s, start) then Cut(start + p.max - 1, false) else Exhausted
    decreases |s| - e
  {
    hide Hit;
    assert e < horizon ==> !InRange(p, s, start, e);
    if e < |s| && !(p.max != MAX_INT && start + p.max <= e + 1) {
      BlindScan(p, s, start, e + 1, horizon);
    }
  }

  // A misled call cuts before the chunk, or at max or not at all where there is a hit in range.
  lemma {:induction false} MisledMeans(p: Params, c: Call)
    requires Placed(p, c) && p.max >= 1 && Misled(p, c)
    ensures var s, start := c.before.stream, c.before.start;
      var d, clear := Scan(p, s, start, c.from, c.horizon), Scan(p, s, start, start, |s|);
      if Early(p, c) then d == Cut(c.from, true)
      else
        && clear.Cut? && clear.contentDefined
        && d == (if Reaches(p, s, start) then Cut(start + p.max - 1, false) else Exhausted)
  {
    hide Hit;
    var s, start := c.before.stream, c.before.start;
    ScanMeans(p, s, start, start);
    if !Early(p, c) {
      assert Scan(p, s, start, c.from, c.horizon) == Scan(p, s, start, start, c.horizon);
      BlindScan(p, s, start, start, c.horizon);
    }
  }

  // A call that is not misled decides as the scan that sees every hit. One that is does not.
  lemma {:induction false} DecisionMeans(p: Params, c: Call)
    requires Placed(p, c) && p.max >= 1
    ensures var s, start := c.before.stream, c.before.start;
      Scan(p, s, start, c.from, c.horizon) == Scan(p, s, start, start, |s|) <==> !Misled(p, c)
  {
    hide Hit;
    var s, start := c.before.stream, c.before.start;
    if Misled(p, c) {
      MisledMeans(p, c);
      ScanMeans(p, s, start, start);
    } else {
      ScanMeans(p, s, start, start);
      if c.from < start { assert Scan(p, s, start, c.from, c.horizon) == Scan(p, s, start, start, c.horizon); }
      if |s| <= c.horizon {
        PastEnd(p, s, start, start, c.horizon);
      } else {
        BlindScan(p, s, start, start, c.horizon);
      }
    }
  }

  // Different decisions lead to different states.
  lemma {:induction false} ConcludeApart(p: Params, v: View, d: Decision, d': Decision)
    requires !v.done && v.start <= |v.stream| && d != d'
    requires d.Cut? ==> v.start <= d.end + 1 <= |v.stream|
    requires d'.Cut? ==> v.start <= d'.end + 1 <= |v.stream|
    ensures Conclude(p, v, d) != Conclude(p, v, d')
  {
    hide WindowSum;
    if d.Cut? && d'.Cut? && d.end == d'.end {
      var a, b := Conclude(p, v, d).1.emitted, Conclude(p, v, d').1.emitted;
      assert a[|v.emitted|].contentDefined != b[|v.emitted|].contentDefined;
    }
  }

  // Exactly when a call answers as the machine that sees every hit.
  lemma {:induction false} AnswerExactly(p: Params, c: Call)
    requires Placed(p, c) && p.max >= 1 && !c.before.done
    ensures Answer(p, c) == Advance(p, c.before, c.before.start, |c.before.stream|) <==> !Misled(p, c)
  {
    hide Scan, Conclude, Misled;
    var v := c.before;
    var d, clear := Scan(p, v.stream, v.start, c.from, c.horizon), Scan(p, v.stream, v.start, v.start, |v.stream|);
    DecisionMeans(p, c);
    if d != clear { ConcludeApart(p, v, d, clear); }
  }

  // ----- many calls

  // v is w after more bytes, or the end of them, and nothing else.
  ghost predicate Follows(w: View, v: View) {
    && w.stream <= v.stream && (w.eof ==> v.eof && v.stream == w.stream)
    && v.(stream := w.stream, eof := w.eof) == w
  }

  // The calls lead from the empty machine to v.
  ghost predicate History(p: Params, calls: seq<Call>, v: View)
    decreases |calls|
  {
    if calls == [] then Follows(EMPTY, v)
    else
      var c := calls[|calls| - 1];
      Placed(p, c) && History(p, calls[..|calls| - 1], c.before) && Follows(Answer(p, c).1, v)
  }

  lemma {:induction false} HistoryEmpty(p: Params)
    ensures History(p, [], EMPTY) && NoneSpoils(p, [])
  {
  }

  lemma {:induction false} HistoryFollows(p: Params, calls: seq<Call>, w: View, v: View)
    requires History(p, calls, w) && Follows(w, v)
    ensures History(p, calls, v)
  {
    hide Advance;
  }

  lemma {:induction false} HistoryCall(p: Params, calls: seq<Call>, c: Call)
    requires History(p, calls, c.before) && Placed(p, c)
    ensures History(p, calls + [c], Answer(p, c).1)
  {
    hide Advance;
    assert (calls + [c])[..|calls|] == calls;
  }

  // A misled call that cuts: at a hit before the chunk, at max, or at the end of the stream.
  ghost predicate Spoils(p: Params, c: Call) {
    var v := c.before;
    && Placed(p, c) && !v.done && Misled(p, c)
    && (Early(p, c) || Reaches(p, v.stream, v.start) || v.eof)
  }

  // That is a misled call that hands out a chunk.
  lemma {:induction false} SpoilsExactly(p: Params, c: Call)
    requires Placed(p, c) && p.max >= 1
    ensures Spoils(p, c) <==> !c.before.done && Misled(p, c) && Answer(p, c).0 == Emitted
  {
    hide Scan, Hit;
    if !c.before.done && Misled(p, c) { MisledMeans(p, c); }
  }

  ghost predicate NoneSpoils(p: Params, calls: seq<Call>) {
    forall i :: 0 <= i < |calls| ==> !Spoils(p, calls[i])
  }

  // The chunks so far start the chunking of every stream that continues the bytes seen.
  ghost predicate OnCourse(p: Params, v: View) {
    forall t :: v.stream <= t && (v.eof ==> t == v.stream) ==> v.emitted <= Naive(p, t, 0)
  }

  // They start the chunking of no such stream.
  ghost predicate OffCourse(p: Params, v: View) {
    forall t :: v.stream <= t && (v.eof ==> t == v.stream) ==> !(v.emitted <= Naive(p, t, 0))
  }

  // A call that does not spoil keeps what was settled.
  lemma {:induction false} CallKeeps(p: Params, c: Call)
    requires Placed(p, c) && p.max >= 1 && Committed(p, c.before) && !Spoils(p, c)
    ensures Committed(p, Answer(p, c).1)
  {
    hide Scan, Naive, Misled;
    SpoilsExactly(p, c);
    if !c.before.done {
      AnswerExactly(p, c);
      if !Misled(p, c) { CommittedStep(p, c.before, Next); }
    }
  }

  // A call that spoils hands out a chunk that no continuation of the stream begins its next one with.
  lemma {:induction false} CallSpoils(p: Params, c: Call)
    requires Spoils(p, c) && p.max >= 1 && Committed(p, c.before)
    ensures OffCourse(p, Answer(p, c).1)
  {
    hide Scan, Naive, Misled, WindowSum, Conclude;
    var v, w := c.before, Answer(p, c).1;
    forall t | w.stream <= t && (w.eof ==> t == w.stream) ensures !(w.emitted <= Naive(p, t, 0)) {
      WrongChunk(p, c, t);
      PrefixAt(w.emitted, v.emitted, Naive(p, t, v.start));
    }
  }

  // Only what comes next can follow a prefix.
  lemma {:induction false} PrefixAt<T>(xs: seq<T>, before: seq<T>, rest: seq<T>)
    requires |xs| == |before| + 1 && (rest == [] || xs[|before|] != rest[0])
    ensures !(xs <= before + rest)
  {
    if rest != [] { assert (before + rest)[|before|] == rest[0]; }
  }

  // The chunk a misled call hands out is empty where none is, or not content-defined where the next one is.
  lemma {:induction false} WrongChunk(p: Params, c: Call, t: seq<Byte>)
    requires Spoils(p, c) && p.max >= 1
    requires c.before.stream <= t && (c.before.eof ==> t == c.before.stream)
    ensures var v, w := c.before, Answer(p, c).1;
      && w.stream == v.stream && w.eof == v.eof && |w.emitted| == |v.emitted| + 1
      && (Naive(p, t, v.start) == [] || w.emitted[|v.emitted|] != Naive(p, t, v.start)[0])
  {
    hide Scan, Naive, Misled, WindowSum;
    var v := c.before;
    var clear := Scan(p, v.stream, v.start, v.start, |v.stream|);
    SpoilsExactly(p, c);
    MisledMeans(p, c);
    NaiveTiles(p, t, v.start);
    if clear.Cut? && clear.contentDefined {
      ScanExtends(p, v.stream, t, v.start, v.start);
      NaiveStep(p, t, v.start);
    }
  }

  // Once off course, always off course.
  lemma {:induction false} StaysOff(p: Params, v: View, w: View)
    requires OffCourse(p, v) && v.stream <= w.stream && v.emitted <= w.emitted
    requires v.eof ==> w.eof && w.stream == v.stream
    ensures OffCourse(p, w)
  {
    hide Naive;
  }

  lemma {:induction false} FollowsCommitted(p: Params, w: View, v: View)
    requires Committed(p, w) && Follows(w, v)
    ensures Committed(p, v)
  {
    hide Naive;
  }

  // The chunks are those of the naive chunker as long as no call has spoiled them; after that they never are again.
  lemma {:induction false} HistoryMeans(p: Params, calls: seq<Call>, v: View)
    requires History(p, calls, v) && p.max >= 1
    ensures NoneSpoils(p, calls) ==> Committed(p, v)
    ensures !NoneSpoils(p, calls) ==> OffCourse(p, v)
    decreases |calls|
  {
    hide Committed, OffCourse, Advance, Spoils;
    if calls == [] {
      EmptyCommitted(p);
      FollowsCommitted(p, EMPTY, v);
    } else {
      var before, c := calls[..|calls| - 1], calls[|calls| - 1];
      var w := Answer(p, c).1;
      HistoryMeans(p, before, c.before);
      if NoneSpoils(p, before) {
        if Spoils(p, c) { CallSpoils(p, c); StaysOff(p, w, v); } else { CallKeeps(p, c); FollowsCommitted(p, w, v); }
      } else {
        AnswerGrows(p, c);
        StaysOff(p, c.before, w);
        StaysOff(p, w, v);
      }
    }
  }

  lemma {:induction false} AnswerGrows(p: Params, c: Call)
    requires Placed(p, c)
    ensures var v, w := c.before, Answer(p, c).1;
      v.emitted <= w.emitted && w.stream == v.stream && w.eof == v.eof
  {
  }

  // For every schedule and configuration: the chunks start the chunking of every continuation of the stream if and
  // only if no call that handed one out was misled.
  lemma {:induction false} OnCourseExactly(p: Params, calls: seq<Call>, v: View)
    requires History(p, calls, v) && p.max >= 1
    ensures OnCourse(p, v) <==> NoneSpoils(p, calls)
    ensures v.done ==> (v.emitted == Naive(p, v.stream, 0) <==> NoneSpoils(p, calls))
  {
    hide Naive, NoneSpoils;
    HistoryMeans(p, calls, v);
    if NoneSpoils(p, calls) {
      if v.done { DoneIsAll(p, v); }
    } else {
      assert !(v.emitted <= Naive(p, v.stream, 0));
    }
  }

  // Without a forced cut nothing goes wrong before the end of the stream, for every minimum, batch and schedule.
  lemma {:induction false} UnboundedOnCourse(p: Params, calls: seq<Call>, v: View)
    requires History(p, calls, v) && p.max == MAX_INT && !v.eof
    ensures NoneSpoils(p, calls)
    decreases |calls|
  {
    hide Misled, Advance;
    if calls != [] {
      var c := calls[|calls| - 1];
      UnboundedOnCourse(p, calls[..|calls| - 1], c.before);
    }
  }

  // ----- tiling

  // Chunks back to back from 0 to end, each within the length limits its kind promises; when the stream is closed the
  // last one may fall short.
  ghost predicate TilesTo(p: Params, cs: seq<Chunk>, end: nat, closed: bool)
    decreases |cs|
  {
    if cs == [] then end == 0
    else
      var c := cs[|cs| - 1];
      && c.offset + |c.bytes| == end
      && (p.max == MAX_INT || |c.bytes| <= p.max)
      && (c.contentDefined ==> p.min <= |c.bytes|)
      && (!c.contentDefined && !closed ==> |c.bytes| == p.max)
      && TilesTo(p, cs[..|cs| - 1], c.offset, false)
  }

  lemma {:induction false} TilesSnoc(p: Params, cs: seq<Chunk>, c: Chunk, closed: bool)
    requires TilesTo(p, cs, c.offset, false) && (p.max == MAX_INT || |c.bytes| <= p.max)
    requires (c.contentDefined ==> p.min <= |c.bytes|) && (!c.contentDefined && !closed ==> |c.bytes| == p.max)
    ensures TilesTo(p, cs + [c], c.offset + |c.bytes|, closed)
  {
    assert (cs + [c])[..|cs|] == cs;
  }

  lemma {:induction false} TilesClosed(p: Params, cs: seq<Chunk>, end: nat)
    requires TilesTo(p, cs, end, false)
    ensures TilesTo(p, cs, end, true)
  {
  }

  lemma {:induction false} JoinedSnoc(cs: seq<Chunk>, c: Chunk)
    ensures Joined(cs + [c]) == Joined(cs) + c.bytes
    decreases |cs|
  {
    if cs == [] {
      assert [c][1..] == [];
    } else {
      assert (cs + [c])[1..] == cs[1..] + [c];
      JoinedSnoc(cs[1..], c);
    }
  }

  // How long a cut makes the chunk, whatever the horizon.
  lemma {:induction false} CutSpan(p: Params, s: seq<Byte>, start: nat, e: nat, horizon: nat)
    requires p.max >= 1 && (p.max == MAX_INT || e < start + p.max)
    ensures match Scan(p, s, start, e, horizon)
      case Cut(f, true) => e <= f < |s| && start + p.min <= f + 1 && (p.max == MAX_INT || f + 1 <= start + p.max)
      case Cut(f, false) => e <= f < |s| && p.max != MAX_INT && f + 1 == start + p.max
      case Exhausted => e < |s| ==> !Reaches(p, s, start)
    decreases |s| - e
  {
    hide Hit;
    if e < |s| && !(p.max != MAX_INT && start + p.max <= e + 1) { CutSpan(p, s, start, e + 1, horizon); }
  }

  // The chunks so far make up the stream up to the start of the next one, all of it once the machine is done. None is
  // empty unless there is no minimum and cuts are forced.
  ghost predicate Tiled(p: Params, v: View) {
    && v.start <= |v.stream| && (v.done ==> v.eof && v.start == |v.stream|)
    && TilesTo(p, v.emitted, v.start, v.done) && Joined(v.emitted) == v.stream[..v.start]
    && (p.min >= 1 || p.max == MAX_INT ==> AllFull(v.emitted))
  }

  ghost predicate AllFull(cs: seq<Chunk>) {
    forall i :: 0 <= i < |cs| ==> cs[i].bytes != []
  }

  lemma {:induction false} CallTiles(p: Params, c: Call)
    requires Placed(p, c) && p.max >= 1 && Tiled(p, c.before)
    ensures Tiled(p, Answer(p, c).1)
  {
    hide Scan, TilesTo, Joined, WindowSum;
    var v, w := c.before, Answer(p, c).1;
    CutSpan(p, v.stream, v.start, c.from, c.horizon);
    if w.emitted != v.emitted {
      var chunk := w.emitted[|v.emitted|];
      assert w.emitted == v.emitted + [chunk];
      TilesSnoc(p, v.emitted, chunk, w.done);
      JoinedSnoc(v.emitted, chunk);
      assert v.stream[..v.start] + v.stream[v.start..w.start] == w.stream[..w.start];
    } else {
      if !v.done { TilesClosed(p, v.emitted, v.start); }
    }
  }

  // In every configuration and whatever the calls, the chunks tile the stream: no byte is lost or handed out twice.
  lemma {:induction false} HistoryTiles(p: Params, calls: seq<Call>, v: View)
    requires History(p, calls, v) && p.max >= 1
    ensures Tiled(p, v)
    decreases |calls|
  {
    hide TilesTo, Joined, Advance, AllFull;
    if calls == [] {
      NothingTiles(p);
    } else {
      var c := calls[|calls| - 1];
      HistoryTiles(p, calls[..|calls| - 1], c.before);
      CallTiles(p, c);
    }
  }

  lemma {:induction false} NothingTiles(p: Params)
    ensures TilesTo(p, [], 0, false) && Joined([]) == [] && AllFull([])
  {
  }
}
