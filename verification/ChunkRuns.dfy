/** The chunking core under arbitrary schedules, measured against the naive chunker. */
module ChunkRuns {
  import opened Words
  import opened ChunkSpec
  import opened BoundaryQueue
  import opened Chunking
  import opened ChunkLaws
  import opened ChunkDrain
  import opened ChunkHistory
  import opened ChunkFrontier
  import opened ChunkSchedules

  // ----- one call, in every reachable state

  lemma {:induction false} CorePlaced(c: ChunkerCore)
    requires c.Valid()
    ensures Placed(c.P(), c.Ahead())
  {
  }

  // Every reachable state: the next answer is that of the machine that sees every hit unless the call is stale or
  // blocked over an unseen hit in range, or a stale call before has left a hit right before the chunk.
  lemma {:induction false} AnswerIff(c: ChunkerCore)
    requires c.Valid() && !c.done
    ensures Placed(c.P(), c.Ahead())
    ensures Answer(c.P(), c.Ahead()) == Advance(c.P(), c.View(), c.chunkStart, |c.stream|)
      <==> !Misled(c.P(), c.Ahead())
  {
    CorePlaced(c);
    AnswerExactly(c.P(), c.Ahead());
  }

  // In a sound configuration no call is misled.
  lemma {:induction false} SoundAnswer(c: ChunkerCore)
    requires c.Valid() && c.P().Sound()
    ensures !Misled(c.P(), c.Ahead())
  {
    hide Hit;
  }

  // The break is taken at a used-up boundary only with no minimum, right after a cut at the last recorded one.
  lemma {:induction false} StaleExactly(c: ChunkerCore)
    requires c.Valid()
    ensures c.Stale() <==>
      c.min == 0 && c.bcur == |c.bounds| && c.bounds != [] && c.bounds[|c.bounds| - 1] + 1 == c.chunkStart
  {
  }

  // Such a call passes over every hit ahead: it cuts at max, calls for more input or, at the end of the stream,
  // takes all that is left as one chunk.
  lemma {:induction false} StaleIgnoresHits(c: ChunkerCore)
    requires c.Valid() && c.Stale()
    ensures Scan(c.P(), c.stream, c.chunkStart, c.From(), c.Horizon()) ==
      if Reaches(c.P(), c.stream, c.chunkStart) then Cut(c.chunkStart + c.max - 1, false) else Exhausted
  {
    hide QueueOk, Scan;
    StaleExactly(c);
    StaleFrontier(c);
    NoBound(c.P(), c.stream, c.bounds, c.bcur, c.chunkStart, c.chunkStart, c.hashedTo, c.hashedTo);
  }

  lemma {:induction false} StaleFrontier(c: ChunkerCore)
    requires c.Valid() && c.Stale()
    ensures c.chunkStart <= c.hashedTo && c.From() == c.chunkStart
  {
  }

  // Nor is one with at most a batch left to hash.
  lemma {:induction false} SyncedAnswer(c: ChunkerCore)
    requires c.Valid() && c.Synced()
    ensures !Misled(c.P(), c.Ahead())
  {
  }

  // Exactly when a call wants more input: no hit it can see is far enough along, and fewer than max bytes follow
  // the start of the chunk.
  lemma {:induction false} NeedMoreIff(c: ChunkerCore)
    requires c.Valid()
    ensures Placed(c.P(), c.Ahead())
    ensures Answer(c.P(), c.Ahead()).0 == NeedMore <==>
      && !c.eof && !c.done && !Reaches(c.P(), c.stream, c.chunkStart)
      && forall e :: c.From() <= e < |c.stream| && e < c.Horizon() && c.chunkStart + c.min <= e + 1
           ==> !Hit(c.P(), c.stream, e)
  {
    hide Scan, Hit;
    CorePlaced(c);
    ScanRunsOut(c.P(), c.stream, c.chunkStart, c.From(), c.Horizon());
  }

  lemma {:induction false} ScanRunsOut(p: Params, s: seq<Byte>, start: nat, e: nat, horizon: nat)
    requires e <= |s|
    ensures Scan(p, s, start, e, horizon) == Exhausted <==>
      && (e < |s| ==> !Reaches(p, s, start))
      && forall g :: e <= g < |s| && g < horizon && start + p.min <= g + 1 ==> !Hit(p, s, g)
    decreases |s| - e
  {
    hide Hit;
    if e < |s| { ScanRunsOut(p, s, start, e + 1, horizon); }
  }

  // Exactly when a call hands out an empty chunk: with no minimum, the byte right before the chunk is an unhashed
  // hit that the call comes to hash.
  lemma {:induction false} EmptyChunkIff(c: ChunkerCore)
    requires c.Valid() && !c.done
    ensures Placed(c.P(), c.Ahead())
    ensures var a := Answer(c.P(), c.Ahead());
      a.0 == Emitted && |a.1.emitted| == |c.emitted| + 1 && a.1.emitted[|c.emitted|].bytes == []
      <==> c.min == 0 && c.hashedTo < c.chunkStart && !c.Blocked() && Hit(c.P(), c.stream, c.chunkStart - 1)
  {
    hide Hit, WindowSum;
    CorePlaced(c);
  }

  // ----- whole runs

  // The core is where a schedule leads to, by the calls the schedule makes.
  ghost predicate Scheduled(c: ChunkerCore, ops: seq<Op>)
    reads c
  {
    c.batchSize >= 1 && c.Outline() == StateAfter(c.P(), ops) && c.calls == CallsAfter(c.P(), ops)
  }

  lemma {:induction false} ScheduledStart(c: ChunkerCore, ops: seq<Op>)
    requires c.batchSize >= 1 && c.Outline() == START && c.calls == []
    ensures Scheduled(c, ops[..0])
  {
  }

  lemma {:induction false} ScheduledStep(c: ChunkerCore, ops: seq<Op>, op: Op, st: State, calls: seq<Call>)
    requires c.batchSize >= 1 && st == StateAfter(c.P(), ops) && calls == CallsAfter(c.P(), ops)
    requires c.Outline() == After(c.P(), st, op)
    requires c.calls == if op.Next? then calls + [CallAt(c.P(), st)] else calls
    ensures Scheduled(c, ops + [op])
  {
    hide StateAfter, CallsAfter, After, CallAt;
    ScheduleSnoc(c.P(), ops, op);
  }

  lemma {:induction false} ScheduledMeans(c: ChunkerCore, ops: seq<Op>)
    requires c.Valid() && Scheduled(c, ops)
    ensures c.Ahead() == CallAt(c.P(), StateAfter(c.P(), ops))
    ensures c.stream == Fed(ops) && (c.eof <==> Finish in ops)
  {
    hide CallAt, StateAfter;
    c.CallMeans();
    StateFed(c.P(), ops);
  }

  // More bytes, the last ones or not, and what they do to the history.
  method FeedNext(c: ChunkerCore, ghost ops: seq<Op>, bytes: seq<Byte>, last: bool)
    requires c.Valid() && !c.eof && c.P().Fits(c.consumed + |bytes|)
    requires History(c.P(), c.calls, c.View()) && Scheduled(c, ops)
    modifies c
    ensures Scheduled(c, if last then ops + [Feed(bytes), Finish] else ops + [Feed(bytes)])
    ensures c.Valid() && c.Repr() == old(c.Repr()) && History(c.P(), c.calls, c.View())
    ensures c.View() == old(c.View()).(stream := old(c.stream) + bytes, eof := last)
    ensures c.consumed == old(c.consumed) + |bytes| && c.Current() == old(c.Current()) && c.calls == old(c.calls)
    ensures c.Left() <= old(c.Left()) + 2 * |bytes|
    ensures old(c.UpToDate() && (c.consumed == 0 || c.window <= c.consumed)) && Max(c.window, |bytes|) <= c.batchSize
      ==> c.Synced()
  {
    hide QueueOk, History, ChunkerCore.Synced, ChunkerCore.UpToDate, ChunkerCore.Left, Params.Fits, Params.Valid;
    hide ChunkerCore.EvaluatedOnce, ChunkerCore.LeadIn, ChunkerCore.Ready;
    hide StateAfter, CallsAfter, CutAt;
    ghost var before, st := c.View(), c.Outline();
    c.Feed(bytes);
    HistoryFollows(c.P(), c.calls, before, c.View());
    ScheduledStep(c, ops, Feed(bytes), st, c.calls);
    if last {
      FinishNext(c, ops + [Feed(bytes)]);
      assert (ops + [Feed(bytes)]) + [Finish] == ops + [Feed(bytes), Finish];
    }
  }

  // The end of the stream.
  method FinishNext(c: ChunkerCore, ghost ops: seq<Op>)
    requires c.Valid() && History(c.P(), c.calls, c.View()) && Scheduled(c, ops)
    modifies c`eof
    ensures c.Valid() && History(c.P(), c.calls, c.View()) && Scheduled(c, ops + [Finish])
    ensures c.View() == old(c.View()).(eof := true) && c.Left() == old(c.Left()) && (old(c.Synced()) ==> c.Synced())
  {
    hide History, ChunkerCore.Valid, ChunkerCore.Synced, ChunkerCore.Left, StateAfter, CallsAfter, CutAt;
    ghost var before, st := c.View(), c.Outline();
    c.Finish();
    HistoryFollows(c.P(), c.calls, before, c.View());
    ScheduledStep(c, ops, Finish, st, c.calls);
  }

  // A call of Next, and what it does to the history. With every hit in sight, or at most a batch left to hash, it
  // spoils nothing.
  method CallNext(c: ChunkerCore, ghost ops: seq<Op>) returns (r: CoreState)
    requires c.Valid() && History(c.P(), c.calls, c.View()) && Scheduled(c, ops)
    modifies c.Repr()
    ensures c.Valid() && fresh(c.Repr() - old(c.Repr()))
    ensures (r, c.View()) == Advance(c.P(), old(c.View()), old(c.From()), old(c.Horizon()))
    ensures c.Reported(r, old(c.emitted), old(c.Current()))
    ensures Scheduled(c, ops + [Next])
    ensures c.calls == old(c.calls) + [old(c.Ahead())] && History(c.P(), c.calls, c.View())
    ensures NoneSpoils(c.P(), old(c.calls)) && (c.P().Sound() || old(c.Synced())) ==> NoneSpoils(c.P(), c.calls)
    ensures old(c.Synced()) ==> c.Synced() && (r == NeedMore ==> c.UpToDate())
    ensures old(c.chunkStart) <= c.chunkStart <= c.consumed == old(c.consumed)
    ensures if r == Emitted then c.Left() < old(c.Left()) else c.Left() <= old(c.Left())
  {
    hide QueueOk, Advance, History, Spoils, Misled, Params.Sound, HorizonOf, StateAfter, CallsAfter, NextState, CallAt;
    hide CutAt;
    ghost var st, calls := c.Outline(), c.calls;
    c.CallMeans();
    CorePlaced(c);
    HistoryCall(c.P(), c.calls, c.Ahead());
    if c.P().Sound() || c.Synced() { ClearCall(c); }
    r := c.Next();
    ScheduledStep(c, ops, Next, st, calls);
  }

  // Such a call does what the machine that sees every hit does.
  lemma {:induction false} ClearCall(c: ChunkerCore)
    requires c.Valid() && (c.P().Sound() || c.Synced())
    ensures Advance(c.P(), c.View(), c.From(), c.Horizon()) == Advance(c.P(), c.View(), c.chunkStart, |c.stream|)
    ensures !Spoils(c.P(), c.Ahead())
  {
    hide Conclude, Scan, Misled;
    if c.P().Sound() { SoundAnswer(c); } else { SyncedAnswer(c); }
    if !c.done { AnswerIff(c); }
  }

  // One operation more of a schedule on a core, in any configuration; the chunk it hands out, if any.
  method Perform(c: ChunkerCore, ghost ops: seq<Op>, op: Op) returns (out: seq<Chunk>)
    requires c.Valid() && History(c.P(), c.calls, c.View()) && Scheduled(c, ops)
    requires op.Feed? && !c.eof ==> c.P().Fits(c.consumed + |op.bytes|)
    modifies c.Repr()
    ensures c.Valid() && fresh(c.Repr() - old(c.Repr()))
    ensures c.View() == StepFrom(c.P(), old(c.Ahead()), op) && c.emitted == old(c.emitted) + out
    ensures Scheduled(c, ops + [op])
    ensures c.calls == if op.Next? then old(c.calls) + [old(c.Ahead())] else old(c.calls)
    ensures History(c.P(), c.calls, c.View())
    ensures c.P().Sound() ==> c.View() == Step(c.P(), old(c.View()), op)
    ensures c.P().Sound() && NoneSpoils(c.P(), old(c.calls)) ==> NoneSpoils(c.P(), c.calls)
    ensures op.Next? ==> old(c.chunkStart) <= c.chunkStart && (out != [] || c.done || !c.eof)
    ensures op.Next? ==> if out == [] then c.Left() <= old(c.Left()) else c.Left() < old(c.Left())
  {
    hide QueueOk, Advance, History, Spoils, Params.Sound, HorizonOf, NoneSpoils, NextState, CutAt;
    hide StateAfter, CallsAfter, CallAt, ChunkerCore.EvaluatedOnce, ChunkerCore.LeadIn;
    out := [];
    match op
    case Feed(bytes) =>
      if c.eof {
        ScheduledStep(c, ops, op, c.Outline(), c.calls);
      } else {
        FeedNext(c, ops, bytes, false);
      }
    case Finish =>
      FinishNext(c, ops);
    case Next =>
      if c.P().Sound() { ClearCall(c); }
      var r := CallNext(c, ops);
      if r == Emitted { out := [Chunk(c.offset, c.chunk, c.contentDefined, c.sumv)]; }
  }

  // Every prefix of a schedule has fed no more than the whole.
  lemma {:induction false} FedPrefix(ops: seq<Op>, i: nat)
    requires i <= |ops|
    ensures |Fed(ops[..i])| <= |Fed(ops)|
  {
    if i > 0 {
      assert ops[..i][1..] == ops[1..][..i - 1];
      FedPrefix(ops[1..], i - 1);
    }
  }

  // Drives a core through a schedule. Its chunks are right, for every continuation of the stream, if and only if no
  // call that cut was misled; in a sound configuration none is, nor without a forced cut before Finish. In every
  // configuration the chunks tile the stream, and none is empty with a minimum or without a forced cut.
  method Drive(c: ChunkerCore, ops: seq<Op>) returns (chunks: seq<Chunk>)
    requires c.Valid() && c.Outline() == START && c.calls == [] && c.P().Fits(|Fed(ops)|)
    modifies c.Repr()
    ensures c.Valid() && fresh(c.Repr() - old(c.Repr())) && Scheduled(c, ops)
    ensures chunks == c.emitted && c.stream == Fed(ops) && (c.eof <==> Finish in ops)
    ensures History(c.P(), c.calls, c.View())
    ensures OnCourse(c.P(), c.View()) <==> NoneSpoils(c.P(), c.calls)
    ensures c.P().Sound() ==> c.View() == Run(c.P(), EMPTY, ops) && NoneSpoils(c.P(), c.calls)
    ensures c.max == MAX_INT && Finish !in ops ==> OnCourse(c.P(), c.View())
    ensures Joined(chunks) == Fed(ops)[..c.chunkStart] && Tiled(c.P(), c.View())
    ensures c.min >= 1 || c.max == MAX_INT ==> AllFull(chunks)
  {
    hide QueueOk, Fed, Step, StepFrom, History, OnCourse, Params.Sound, After, CallAt, StateAfter, CallsAfter;
    hide AllFull, CutAt, Fed;
    chunks := [];
    ScheduledStart(c, ops);
    HistoryEmpty(c.P());
    FedNothing(ops);
    for i := 0 to |ops|
      invariant c.Valid() && fresh(c.Repr() - old(c.Repr())) && Scheduled(c, ops[..i])
      invariant chunks == c.emitted && c.stream == Fed(ops[..i]) && (c.eof <==> Finish in ops[..i])
      invariant History(c.P(), c.calls, c.View())
      invariant c.P().Sound() ==> c.View() == Run(c.P(), EMPTY, ops[..i]) && NoneSpoils(c.P(), c.calls)
    {
      RunSnoc(c.P(), ops, i);
      FedStep(ops, i);
      FedPrefix(ops, i + 1);
      StepFeeds(c.P(), c.Ahead(), ops[i]);
      var out := Perform(c, ops[..i], ops[i]);
      chunks := chunks + out;
    }
    assert ops[..|ops|] == ops;
    OnCourseExactly(c.P(), c.calls, c.View());
    if c.max == MAX_INT && !c.eof { UnboundedOnCourse(c.P(), c.calls, c.View()); }
    HistoryTiles(c.P(), c.calls, c.View());
  }

  lemma {:induction false} FedNothing(ops: seq<Op>)
    ensures Fed(ops[..0]) == []
  {
  }

  lemma {:induction false} FedStep(ops: seq<Op>, i: nat)
    requires i < |ops|
    ensures ops[..i + 1] == ops[..i] + [ops[i]]
    ensures Fed(ops[..i + 1]) ==
      if Finish in ops[..i] || !ops[i].Feed? then Fed(ops[..i]) else Fed(ops[..i]) + ops[i].bytes
    ensures Finish in ops[..i + 1] <==> Finish in ops[..i] || ops[i] == Finish
  {
    assert ops[..i + 1] == ops[..i] + [ops[i]];
    FedSnoc(ops[..i], ops[i]);
  }

  // What a step does to the stream.
  lemma {:induction false} StepFeeds(p: Params, c: Call, op: Op)
    requires c.from <= c.before.start <= |c.before.stream| && c.before.start <= c.from + 1
    ensures var v, v' := c.before, StepFrom(p, c, op);
      && v'.stream == (if op.Feed? && !v.eof then v.stream + op.bytes else v.stream)
      && v'.eof == (v.eof || op.Finish?)
  {
  }

  // Calls Next until there is nothing more: one call for each byte left and one for the end, and one for an empty
  // chunk if one is due at once. Only with no minimum and a maximum of one byte can it take two calls for a byte.
  method Drain(c: ChunkerCore, ghost ops: seq<Op>) returns (chunks: seq<Chunk>, n: nat)
    requires c.Valid() && c.eof && History(c.P(), c.calls, c.View()) && Scheduled(c, ops)
    modifies c.Repr()
    ensures Scheduled(c, ops + Nexts(n))
    ensures c.Valid() && fresh(c.Repr() - old(c.Repr())) && c.done && c.eof && c.stream == old(c.stream)
    ensures n <= |c.stream| - old(c.chunkStart) + 1
      + (if old(c.From() < c.chunkStart) then 1 else 0)
      + (if c.min == 0 && c.max == 1 then |c.stream| - old(c.chunkStart) else 0)
    ensures Tiled(c.P(), c.View())
    ensures History(c.P(), c.calls, c.View()) && c.emitted == old(c.emitted) + chunks
    ensures c.P().Sound() && NoneSpoils(c.P(), old(c.calls)) ==> NoneSpoils(c.P(), c.calls)
    ensures |c.calls| == |old(c.calls)| + n
  {
    hide QueueOk, Step, StepFrom, History, Params.Sound, Nexts;
    hide Tiled, Scheduled, NoneSpoils;
    chunks, n := [], 0;
    NextsNone(ops);
    while !c.done
      invariant Scheduled(c, ops + Nexts(n))
      invariant c.Valid() && fresh(c.Repr() - old(c.Repr())) && c.eof && c.stream == old(c.stream)
      invariant History(c.P(), c.calls, c.View()) && c.emitted == old(c.emitted) + chunks
      invariant c.P().Sound() && NoneSpoils(c.P(), old(c.calls)) ==> NoneSpoils(c.P(), c.calls)
      invariant |c.calls| == |old(c.calls)| + n
      invariant n + c.Left() + (if c.done then 0 else 1) <= old(c.Left()) + 1
      decreases c.Left() + if c.done then 0 else 1
    {
      StepFeeds(c.P(), c.Ahead(), Next);
      var out := Perform(c, ops + Nexts(n), Next);
      NextsSnoc(ops, n);
      chunks := chunks + out;
      n := n + 1;
    }
    HistoryTiles(c.P(), c.calls, c.View());
  }

  // The whole story, in every configuration: however the bytes arrive and whenever Next is called in between,
  // finishing and calling Next until it has no more yields the chunks the schedule accounts for. They are the naive
  // chunks of the bytes fed if and only if no call that handed one out was misled. In a sound configuration none is.
  method ChunkAll(p: Params, ops: seq<Op>) returns (chunks: seq<Chunk>)
    requires p.Valid() && p.Fits(|Fed(ops)|)
    ensures StateAfter(p, Ended(ops)).view == View(Fed(ops), |Fed(ops)|, true, true, chunks)
    ensures History(p, CallsAfter(p, Ended(ops)), StateAfter(p, Ended(ops)).view)
    ensures chunks == Naive(p, Fed(ops), 0) <==> NoneSpoils(p, CallsAfter(p, Ended(ops)))
    ensures p.Sound() ==> chunks == Naive(p, Fed(ops), 0)
    ensures Joined(chunks) == Fed(ops) && TilesTo(p, chunks, |Fed(ops)|, true)
    ensures p.min >= 1 || p.max == MAX_INT ==> AllFull(chunks)
  {
    hide QueueOk, Naive, History, OnCourse, Run, Fed, Params.Sound, NoneSpoils, StateAfter, CallsAfter, After, CallAt;
    var c := new ChunkerCore(p.scheme, p.window, p.mask, p.min, p.max, p.batchSize);
    chunks := Drive(c, ops);
    var none := Perform(c, ops, Finish);
    var rest, n := Drain(c, ops + [Finish]);
    chunks := chunks + rest;
    OnCourseExactly(p, c.calls, c.View());
    EndsThere(c, ops, n);
    assert Fed(ops)[..|Fed(ops)|] == Fed(ops);
  }

  // A core drained is where the schedule run to its end leads to.
  lemma {:induction false} EndsThere(c: ChunkerCore, ops: seq<Op>, n: nat)
    requires c.Valid() && c.done && History(c.P(), c.calls, c.View()) && n <= 2 * |Fed(ops)| + 2
    requires Scheduled(c, ops + [Finish] + Nexts(n))
    ensures StateAfter(c.P(), Ended(ops)).view == c.View()
    ensures History(c.P(), CallsAfter(c.P(), Ended(ops)), c.View())
    ensures NoneSpoils(c.P(), CallsAfter(c.P(), Ended(ops))) <==> NoneSpoils(c.P(), c.calls)
  {
    hide QueueOk, Fed, History, NoneSpoils, StateAfter, CallsAfter;
    var sofar, more := ops + [Finish] + Nexts(n), 2 * |Fed(ops)| + 2 - n;
    SettledStays(c.P(), sofar, more);
    assert sofar + Nexts(more) == Ended(ops);
  }

  // ----- bounded memory

  // Feeds pieces of at most k bytes, calling Next until it wants more before each. However long the stream, the
  // buffer never holds more than max + window - 1 + k bytes: it only grows in Feed, and stands as Feed left it here.
  method FeedDrained(c: ChunkerCore, pieces: seq<seq<Byte>>, k: nat)
    requires c.Valid() && c.View() == EMPTY && c.cbuf == []
    requires c.max != MAX_INT && c.P().Fits(|Flatten(pieces)|)
    requires forall i :: 0 <= i < |pieces| ==> |pieces[i]| <= k
    modifies c.Repr()
    ensures c.Valid() && c.stream == Flatten(pieces) && |c.cbuf| <= c.max + c.window - 1 + k
    ensures c.consumed < c.chunkStart + c.max
  {
    hide QueueOk, Advance, Flatten;
    FlattenNone(pieces);
    for i := 0 to |pieces|
      invariant c.Valid() && fresh(c.Repr() - old(c.Repr())) && !c.eof && !c.done
      invariant c.stream == Flatten(pieces[..i]) && |c.cbuf| <= c.max + c.window - 1 + k
      invariant c.consumed < c.chunkStart + c.max
    {
      FlattenPrefix(pieces, i + 1);
      assert pieces[..i + 1] == pieces[..i] + [pieces[i]];
      FlattenSnoc(pieces[..i], pieces[i]);
      c.Feed(pieces[i]);
      DrainNow(c);
    }
    assert pieces[..|pieces|] == pieces;
  }

  // Calls Next until it wants more input, before the end of the stream is known.
  method DrainNow(c: ChunkerCore)
    requires c.Valid() && !c.eof && !c.done
    modifies c.Repr()
    ensures c.Valid() && fresh(c.Repr() - old(c.Repr())) && !c.eof && !c.done
    ensures c.stream == old(c.stream) && c.cbuf == old(c.cbuf)
    ensures c.max == MAX_INT || c.consumed < c.chunkStart + c.max
  {
    hide QueueOk, Conclude, Scan;
    var more := true;
    while more
      invariant c.Valid() && fresh(c.Repr() - old(c.Repr())) && !c.eof && !c.done
      invariant c.stream == old(c.stream) && c.cbuf == old(c.cbuf)
      invariant !more ==> c.max == MAX_INT || c.consumed < c.chunkStart + c.max
      decreases c.Left(), if more then 1 else 0
    {
      var r := c.Next();
      more := r == Emitted;
    }
  }
}
