/** What the naive chunking guarantees, and that every schedule of the machine arrives at it. */
module ChunkLaws {
  import opened Words
  import opened ChunkSpec
  import opened BoundaryQueue

  // ----- the scan, declaratively

  ghost predicate Reaches(p: Params, s: seq<Byte>, start: nat) {
    p.max != MAX_INT && start + p.max <= |s|
  }

  // The scan cuts at the first hit in range, else at max, else not at all.
  lemma {:induction false} ScanMeans(p: Params, s: seq<Byte>, start: nat, e: nat)
    requires start <= e <= |s| && p.max >= 1 && (e == start || !PastMax(p, start, e))
    ensures match Scan(p, s, start, e, |s|)
      case Cut(c, true) => InRange(p, s, start, c) && forall g :: e <= g < c ==> !InRange(p, s, start, g)
      case Cut(c, false) => Reaches(p, s, start) && c + 1 == start + p.max
        && forall g :: e <= g <= c ==> !InRange(p, s, start, g)
      case Exhausted => !Reaches(p, s, start) && forall g :: e <= g < |s| ==> !InRange(p, s, start, g)
    decreases |s| - e
  {
    hide Hit;
    if e < |s| && !(start + p.min <= e + 1 && Hit(p, s, e)) && !(p.max != MAX_INT && start + p.max <= e + 1) {
      ScanMeans(p, s, start, e + 1);
    }
  }

  // More input is wanted exactly when the bytes so far hold no hit in range and fewer than max of them
  // follow the start of the chunk.
  lemma {:induction false} NeedMoreExactly(p: Params, v: View)
    requires p.max >= 1 && v.start <= |v.stream|
    ensures Advance(p, v, v.start, |v.stream|).0 == NeedMore <==>
      && !v.eof && !v.done && !Reaches(p, v.stream, v.start)
      && forall g :: v.start <= g < |v.stream| ==> !InRange(p, v.stream, v.start, g)
  {
    hide Scan, Hit;
    ScanMeans(p, v.stream, v.start, v.start);
  }

  // More bytes never change a cut already made.
  lemma {:induction false} ScanExtends(p: Params, s: seq<Byte>, t: seq<Byte>, start: nat, e: nat)
    requires s <= t && Scan(p, s, start, e, |s|).Cut?
    ensures Scan(p, t, start, e, |t|) == Scan(p, s, start, e, |s|)
    decreases |s| - e
  {
    var more := t[|s|..];
    assert t == s + more;
    HitExtends(p, s, more, e);
    if !(start + p.min <= e + 1 && Hit(p, s, e)) && !(p.max != MAX_INT && start + p.max <= e + 1) {
      ScanExtends(p, s, t, start, e + 1);
    }
  }

  lemma {:induction false} ChunkExtends(p: Params, s: seq<Byte>, t: seq<Byte>, start: nat, d: Decision)
    requires s <= t && d.Cut? && start <= d.end + 1 <= |s|
    ensures ChunkAt(p, t, start, d) == ChunkAt(p, s, start, d)
  {
    assert t[start..d.end + 1] == s[start..d.end + 1];
    if p.window <= d.end + 1 {
      assert t[d.end + 1 - p.window..d.end + 1] == s[d.end + 1 - p.window..d.end + 1];
    }
  }

  // ----- tiling

  ghost function Joined(cs: seq<Chunk>): seq<Byte> {
    if cs == [] then [] else cs[0].bytes + Joined(cs[1..])
  }

  // Non-empty chunks back to back from offset at, each within the length limits its kind promises.
  ghost predicate Tiles(p: Params, cs: seq<Chunk>, at: nat) {
    cs == [] ||
    (&& cs[0].offset == at && cs[0].bytes != []
     && (p.max == MAX_INT || |cs[0].bytes| <= p.max)
     && (cs[0].contentDefined ==> p.min <= |cs[0].bytes|)
     && (!cs[0].contentDefined && |cs| > 1 ==> |cs[0].bytes| == p.max)
     && Tiles(p, cs[1..], at + |cs[0].bytes|))
  }

  lemma {:induction false} NaiveEnd(p: Params, s: seq<Byte>)
    ensures Naive(p, s, |s|) == [] && Joined([]) == [] == s[|s|..] && Tiles(p, [], |s|)
  {
  }

  lemma {:induction false} NaiveStep(p: Params, s: seq<Byte>, start: nat)
    requires start < |s|
    ensures var d := Final(p, s, start, Scan(p, s, start, start, |s|));
      Naive(p, s, start) == [ChunkAt(p, s, start, d)] + Naive(p, s, d.end + 1)
  {
  }

  lemma {:induction false} CutLength(p: Params, s: seq<Byte>, start: nat)
    requires p.max >= 1 && start < |s|
    ensures var d := Final(p, s, start, Scan(p, s, start, start, |s|)); var n := d.end + 1 - start;
      && 1 <= n && (p.max == MAX_INT || n <= p.max)
      && (d.contentDefined ==> p.min <= n)
      && (!d.contentDefined && d.end + 1 < |s| ==> n == p.max)
  {
    hide Scan, Hit;
    ScanMeans(p, s, start, start);
  }

  lemma {:induction false} TilesCons(p: Params, c: Chunk, rest: seq<Chunk>, at: nat)
    requires c.offset == at && c.bytes != [] && (p.max == MAX_INT || |c.bytes| <= p.max)
    requires (c.contentDefined ==> p.min <= |c.bytes|) && (!c.contentDefined && rest != [] ==> |c.bytes| == p.max)
    requires Tiles(p, rest, at + |c.bytes|)
    ensures Tiles(p, [c] + rest, at) && Joined([c] + rest) == c.bytes + Joined(rest)
  {
    assert ([c] + rest)[1..] == rest;
  }

  lemma {:induction false} NaiveTiles(p: Params, s: seq<Byte>, start: nat)
    requires p.max >= 1 && start <= |s|
    ensures Joined(Naive(p, s, start)) == s[start..]
    ensures Tiles(p, Naive(p, s, start), start)
    ensures |Naive(p, s, start)| <= |s| - start
    decreases |s| - start
  {
    hide Naive, Tiles, Joined, Scan, WindowSum;
    if start == |s| {
      NaiveEnd(p, s);
    } else {
      var d := Final(p, s, start, Scan(p, s, start, start, |s|));
      CutLength(p, s, start);
      NaiveTiles(p, s, d.end + 1);
      NaiveStep(p, s, start);
      TilesCons(p, ChunkAt(p, s, start, d), Naive(p, s, d.end + 1), start);
      assert s[start..d.end + 1] + s[d.end + 1..] == s[start..];
    }
  }

  // ----- the checksum at a cut

  // A chunk reports the checksum of the window that ends with it, reaching back into the chunks before where it must.
  // It reports 0 if and only if there is no full window there, or the window's checksum is 0.
  lemma {:induction false} SumsExactly(p: Params, s: seq<Byte>, start: nat, i: nat)
    requires p.max >= 1 && start <= |s| && i < |Naive(p, s, start)|
    ensures var c := Naive(p, s, start)[i]; var end := c.offset + |c.bytes|;
      end <= |s| && c.sum == if end < p.window then 0 else p.scheme.Of(s[end - p.window..end])
    decreases |s| - start
  {
    hide Scan, Naive;
    if start == |s| { NaiveEnd(p, s); }
    var d := Final(p, s, start, Scan(p, s, start, start, |s|));
    CutLength(p, s, start);
    NaiveStep(p, s, start);
    if i > 0 {
      hide WindowSum;
      SumsExactly(p, s, d.end + 1, i - 1);
    }
  }

  // ----- the chunking, declaratively

  // c is cut where the rule says: its bytes are those of the stream, it ends at the first hit in range, failing that at
  // max or at the end, and it reports the window that ends with it.
  ghost predicate CutRight(p: Params, s: seq<Byte>, c: Chunk) {
    var end := c.offset + |c.bytes|;
    && c.bytes != [] && end <= |s| && c.bytes == s[c.offset..end]
    && (c.contentDefined <==> InRange(p, s, c.offset, end - 1))
    && (forall g :: c.offset <= g < end - 1 ==> !InRange(p, s, c.offset, g))
    && (p.max == MAX_INT || |c.bytes| <= p.max)
    && (c.contentDefined || end == |s| || (p.max != MAX_INT && |c.bytes| == p.max))
    && c.sum == if end < p.window then 0 else p.scheme.Of(s[end - p.window..end])
  }

  // From start to the end of s, one chunk after the other.
  ghost predicate CutsRight(p: Params, s: seq<Byte>, start: nat, cs: seq<Chunk>)
    decreases |cs|
  {
    if cs == [] then start == |s|
    else cs[0].offset == start && CutRight(p, s, cs[0]) && CutsRight(p, s, start + |cs[0].bytes|, cs[1..])
  }

  // There is one way to cut right from start.
  lemma {:induction false} CutRightExactly(p: Params, s: seq<Byte>, c: Chunk)
    requires p.max >= 1 && c.offset < |s|
    ensures var d := Final(p, s, c.offset, Scan(p, s, c.offset, c.offset, |s|));
      CutRight(p, s, c) <==> c == ChunkAt(p, s, c.offset, d)
  {
    hide Scan, Hit;
    ScanMeans(p, s, c.offset, c.offset);
    CutLength(p, s, c.offset);
    var last := Final(p, s, c.offset, Scan(p, s, c.offset, c.offset, |s|)).end;
    var end := c.offset + |c.bytes|;
    assert CutRight(p, s, c) && last < end - 1 ==> !InRange(p, s, c.offset, last);
  }

  // The naive chunking is the one chunking of s that follows the rule.
  lemma {:induction false} NaiveExactly(p: Params, s: seq<Byte>, start: nat, cs: seq<Chunk>)
    requires p.max >= 1 && start <= |s|
    ensures CutsRight(p, s, start, cs) <==> cs == Naive(p, s, start)
    decreases |cs|
  {
    hide CutRight, ChunkAt, Scan, Naive;
    if start == |s| {
      NaiveEnd(p, s);
      if cs != [] && cs[0].offset == start { NothingToCut(p, s, cs[0]); }
    } else {
      var d := Final(p, s, start, Scan(p, s, start, start, |s|));
      NaiveStep(p, s, start);
      if cs != [] && cs[0].offset == start {
        CutRightExactly(p, s, cs[0]);
        ChunkSpan(p, s, start, d);
        if cs[0] == ChunkAt(p, s, start, d) { NaiveExactly(p, s, d.end + 1, cs[1..]); }
        assert cs == [cs[0]] + cs[1..];
      } else if cs != [] {
        ChunkSpan(p, s, start, d);
      }
    }
  }

  lemma {:induction false} NothingToCut(p: Params, s: seq<Byte>, c: Chunk)
    requires c.offset >= |s|
    ensures !CutRight(p, s, c)
  {
  }

  lemma {:induction false} ChunkSpan(p: Params, s: seq<Byte>, start: nat, d: Decision)
    requires d.Cut? && start <= d.end + 1 <= |s|
    ensures var c := ChunkAt(p, s, start, d); c.offset == start && start + |c.bytes| == d.end + 1
  {
  }

  // With max below the window length the first chunk of a longer stream is forced before there is a full window, so a
  // chunk that is not the last one reports 0.
  lemma {:induction false} ForcedWithoutWindow(p: Params, s: seq<Byte>)
    requires 1 <= p.max < p.window && p.max < |s| && p.Fits(|s|)
    ensures |Naive(p, s, 0)| >= 2 && Naive(p, s, 0)[0] == Chunk(0, s[..p.max], false, 0)
  {
    hide Scan, Naive;
    ScanMeans(p, s, 0, 0);
    NaiveStep(p, s, 0);
    NaiveStep(p, s, p.max);
  }

  // ----- schedules

  datatype Op = Feed(bytes: seq<Byte>) | Next | Finish

  // The machine; bytes offered after Finish are turned away, and Next sees the hits the call can see.
  ghost function StepFrom(p: Params, c: Call, op: Op): (v': View)
    requires c.from <= c.before.start <= |c.before.stream| && c.before.start <= c.from + 1
    ensures v'.start <= |v'.stream|
    ensures op.Next? ==> v'.stream == c.before.stream && v'.eof == c.before.eof
  {
    var v := c.before;
    match op
    case Feed(bytes) => if v.eof then v else v.(stream := v.stream + bytes)
    case Finish => v.(eof := true)
    case Next => Advance(p, v, c.from, c.horizon).1
  }

  // The machine that sees every hit.
  ghost function Step(p: Params, v: View, op: Op): (v': View)
    requires v.start <= |v.stream|
    ensures v'.start <= |v'.stream|
    ensures op.Next? ==> v'.stream == v.stream && v'.eof == v.eof
  {
    StepFrom(p, Call(v, v.start, |v.stream|), op)
  }

  ghost function Run(p: Params, v: View, ops: seq<Op>): (v': View)
    requires v.start <= |v.stream|
    ensures v'.start <= |v'.stream|
  {
    if ops == [] then v else Step(p, Run(p, v, ops[..|ops| - 1]), ops[|ops| - 1])
  }

  const EMPTY: View := View([], 0, false, false, [])

  // The bytes a schedule feeds before it finishes.
  function Fed(ops: seq<Op>): seq<Byte> {
    if ops == [] then []
    else match ops[0]
      case Feed(bytes) => bytes + Fed(ops[1..])
      case Next => Fed(ops[1..])
      case Finish => []
  }

  // The bytes of a list of pieces.
  function Flatten(fs: seq<seq<Byte>>): seq<Byte> {
    if fs == [] then [] else Flatten(fs[..|fs| - 1]) + fs[|fs| - 1]
  }

  lemma {:induction false} FlattenSnoc(fs: seq<seq<Byte>>, f: seq<Byte>)
    ensures Flatten(fs + [f]) == Flatten(fs) + f
  {
    assert (fs + [f])[..|fs|] == fs;
  }

  lemma {:induction false} FlattenNone(fs: seq<seq<Byte>>)
    ensures Flatten(fs[..0]) == []
  {
  }

  // Every prefix of the pieces holds no more than all of them.
  lemma {:induction false} FlattenPrefix(fs: seq<seq<Byte>>, i: nat)
    requires i <= |fs|
    ensures |Flatten(fs[..i])| <= |Flatten(fs)|
    decreases |fs| - i
  {
    if i < |fs| {
      assert fs[..i + 1][..i] == fs[..i];
      FlattenPrefix(fs, i + 1);
    } else {
      assert fs[..i] == fs;
    }
  }

  // The emitted chunks are settled: every stream that continues the bytes seen is chunked into
  // them first and goes on from the current start.
  ghost predicate Committed(p: Params, v: View) {
    && v.start <= |v.stream| && (v.done ==> v.eof && v.start == |v.stream|)
    && forall t :: v.stream <= t && (v.eof ==> t == v.stream) ==> Naive(p, t, 0) == v.emitted + Naive(p, t, v.start)
  }

  lemma {:induction false} CommittedStep(p: Params, v: View, op: Op)
    requires Committed(p, v) && p.max >= 1
    ensures Committed(p, Step(p, v, op))
  {
    hide Naive, Scan, ChunkAt;
    var v' := Step(p, v, op);
    if op.Next? && !v.done {
      var d := Scan(p, v.stream, v.start, v.start, |v.stream|);
      forall t | v'.stream <= t && (v'.eof ==> t == v'.stream)
        ensures Naive(p, t, 0) == v'.emitted + Naive(p, t, v'.start)
      {
        if d.Cut? {
          ScanExtends(p, v.stream, t, v.start, v.start);
          NaiveStep(p, t, v.start);
          ChunkExtends(p, v.stream, t, v.start, d);
          assert v'.emitted + Naive(p, t, v'.start) == v.emitted + Naive(p, t, v.start);
        } else if v.eof && v.start < |v.stream| {
          NaiveStep(p, t, v.start);
          assert v'.emitted + Naive(p, t, v'.start) == v.emitted + Naive(p, t, v.start);
        }
      }
    }
  }

  lemma {:induction false} CommittedRun(p: Params, v: View, ops: seq<Op>)
    requires Committed(p, v) && p.max >= 1
    ensures Committed(p, Run(p, v, ops))
    decreases |ops|
  {
    if ops != [] {
      CommittedRun(p, v, ops[..|ops| - 1]);
      CommittedStep(p, Run(p, v, ops[..|ops| - 1]), ops[|ops| - 1]);
    }
  }

  lemma {:induction false} EmptyCommitted(p: Params)
    ensures Committed(p, EMPTY)
  {
  }

  lemma {:induction false} DoneIsAll(p: Params, v: View)
    requires Committed(p, v) && v.done
    ensures v.emitted == Naive(p, v.stream, 0)
  {
    NaiveEnd(p, v.stream);
    assert v.emitted + [] == v.emitted;
  }

  // Chunks emitted at any point are the first chunks of whatever the stream turns out to be.
  lemma {:induction false} OnlinePrefix(p: Params, ops: seq<Op>, t: seq<Byte>)
    requires p.max >= 1
    requires var v := Run(p, EMPTY, ops); v.stream <= t && (v.eof ==> t == v.stream)
    ensures Run(p, EMPTY, ops).emitted <= Naive(p, t, 0)
    ensures Run(p, EMPTY, ops).done ==> Run(p, EMPTY, ops).emitted == Naive(p, t, 0)
  {
    CommittedRun(p, EMPTY, ops);
  }
}

module ChunkDrain {
  import opened Words
  import opened ChunkSpec
  import opened ChunkLaws

  function Nexts(n: nat): seq<Op> {
    seq(n, _ => Next)
  }

  lemma {:induction false} FedSnoc(ops: seq<Op>, op: Op)
    ensures Fed(ops + [op]) == if Finish in ops || !op.Feed? then Fed(ops) else Fed(ops) + op.bytes
  {
    if ops != [] {
      assert (ops + [op])[1..] == ops[1..] + [op];
      FedSnoc(ops[1..], op);
    }
  }

  // A schedule run to its end: finished, and Next called until it surely has no more.
  function Ended(ops: seq<Op>): seq<Op> {
    ops + [Finish] + Nexts(2 * |Fed(ops)| + 2)
  }

  // What a puller that reads blocks of n bytes does next: a block when the core waits for one, the end when the reader
  // has told, and else the next call.
  function PullOp(n: nat, input: seq<Byte>, eager: bool, ops: seq<Op>, hungry: bool): Op {
    var fed := |Fed(ops)|;
    if hungry && fed <= |input| then Feed(input[fed..Min(fed + n, |input|)])
    else if ops != [] && ops[|ops| - 1].Feed? && (|ops[|ops| - 1].bytes| < n || (eager && fed == |input|)) then Finish
    else Next
  }

  // The reader has told that a block is the last, or not.
  lemma {:induction false} PullBlock(n: nat, input: seq<Byte>, eager: bool, ops: seq<Op>, rest: seq<Byte>,
                                     block: seq<Byte>, last: bool)
    requires Finish !in ops && input == Fed(ops) + rest
    requires block == rest[..Min(n, |rest|)] && (last <==> |rest| < n || (eager && |rest| == n))
    ensures PullOp(n, input, eager, ops, true) == Feed(block)
    ensures PullOp(n, input, eager, ops + [Feed(block)], false) == if last then Finish else Next
    ensures PullOp(n, input, eager, ops + [Feed(block), Finish], false) == Next
  {
    hide Fed;
    FedSnoc(ops, Feed(block));
    assert block == input[|Fed(ops)|..Min(|Fed(ops)| + n, |input|)];
  }

  lemma {:induction false} Taken(s: seq<Byte>, rest: seq<Byte>, n: nat)
    requires n <= |rest|
    ensures (s + rest[..n]) + rest[n..] == s + rest
  {
  }

  lemma {:induction false} NextsNone(ops: seq<Op>)
    ensures ops + Nexts(0) == ops
  {
  }

  lemma {:induction false} NextsSnoc(ops: seq<Op>, n: nat)
    ensures ops + Nexts(n + 1) == (ops + Nexts(n)) + [Next]
  {
  }

  // What a schedule fed is what the machine has seen, and finishing shows.
  lemma {:induction false} RunFed(p: Params, ops: seq<Op>)
    ensures var v := Run(p, EMPTY, ops); v.stream == Fed(ops) && (v.eof <==> Finish in ops)
    decreases |ops|
  {
    hide Advance;
    if ops != [] {
      var init, op := ops[..|ops| - 1], ops[|ops| - 1];
      assert ops == init + [op];
      RunFed(p, init);
      FedSnoc(init, op);
    }
  }

  lemma {:induction false} RunSnoc(p: Params, ops: seq<Op>, i: nat)
    requires i < |ops|
    ensures Run(p, EMPTY, ops[..i + 1]) == Step(p, Run(p, EMPTY, ops[..i]), ops[i])
    ensures var v := Run(p, EMPTY, ops[..i]);
      ops[i].Feed? && !v.eof ==> Run(p, EMPTY, ops[..i + 1]).stream == v.stream + ops[i].bytes
  {
    assert ops[..i + 1][..i] == ops[..i];
  }

  lemma {:induction false} RunAppend(p: Params, v: View, xs: seq<Op>, ys: seq<Op>)
    requires v.start <= |v.stream|
    ensures Run(p, v, xs + ys) == Run(p, Run(p, v, xs), ys)
    decreases |ys|
  {
    if ys == [] {
      assert xs + ys == xs;
    } else {
      assert (xs + ys)[..|xs + ys| - 1] == xs + ys[..|ys| - 1];
      RunAppend(p, v, xs, ys[..|ys| - 1]);
    }
  }

  // A call after Finish emits at least a byte or ends the run.
  lemma {:induction false} NextProgresses(p: Params, v: View)
    requires v.start <= |v.stream| && v.eof && !v.done
    ensures var v' := Step(p, v, Next);
      v'.eof && v'.stream == v.stream && v.start <= v'.start && (v'.done || v.start < v'.start)
  {
  }

  // After Finish every call of Next emits a chunk until none is left: one call per remaining byte and one more do.
  lemma {:induction false} Drained(p: Params, v: View, n: nat)
    requires v.start <= |v.stream| && v.eof && |v.stream| - v.start < n
    ensures Run(p, v, Nexts(n)).done
    decreases n
  {
    hide Conclude, Advance, Scan;
    var w := Step(p, v, Next);
    if !v.done { NextProgresses(p, v); }
    assert Nexts(n) == [Next] + Nexts(n - 1);
    RunAppend(p, v, [Next], Nexts(n - 1));
    assert [Next][..0] == [];
    assert Run(p, v, [Next]) == w;
    if v.done {
      StaysDone(p, v, n);
    } else if w.done {
      StaysDone(p, w, n - 1);
    } else {
      Drained(p, w, n - 1);
    }
  }

  lemma {:induction false} StaysDone(p: Params, v: View, n: nat)
    requires v.start <= |v.stream| && v.done
    ensures Run(p, v, Nexts(n)) == v
    decreases n
  {
    if n > 0 {
      assert Nexts(n)[..n - 1] == Nexts(n - 1);
      StaysDone(p, v, n - 1);
    }
  }

  // Whatever the split into feeds and the interleaving with next, finishing and draining
  // leaves exactly the naive chunks of the bytes fed.
  lemma {:induction false} ScheduleIndependent(p: Params, ops: seq<Op>, n: nat)
    requires p.max >= 1 && |Fed(ops)| < n
    ensures var v := Run(p, EMPTY, ops + [Finish] + Nexts(n));
      v.done && v.stream == Fed(ops) && v.emitted == Naive(p, Fed(ops), 0)
  {
    var closed := ops + [Finish];
    var v := Run(p, EMPTY, closed);
    RunFed(p, closed);
    FedSnoc(ops, Finish);
    assert Finish in closed;
    RunAppend(p, EMPTY, closed, Nexts(n));
    Drained(p, v, n);
    RunFed(p, closed + Nexts(n));
    FedFinished(closed, n);
    OnlinePrefix(p, closed + Nexts(n), Fed(ops));
  }

  lemma {:induction false} FedFinished(ops: seq<Op>, n: nat)
    ensures Fed(ops + Nexts(n)) == Fed(ops)
    decreases n
  {
    if n == 0 {
      assert ops + Nexts(0) == ops;
    } else {
      assert ops + Nexts(n) == (ops + Nexts(n - 1)) + [Next];
      FedFinished(ops, n - 1);
      FedSnoc(ops + Nexts(n - 1), Next);
    }
  }
}
