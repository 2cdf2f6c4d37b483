/** The pull side: a reader drained into the chunking core, block by block. */
module ChunkFeeds {
  import opened Words
  import opened Hashing
  import opened ChunkSpec
  import opened BoundaryQueue
  import opened Chunking
  import opened ChunkLaws
  import opened ChunkDrain
  import opened ChunkHistory
  import opened ChunkFrontier
  import opened ChunkSchedules
  import opened ChunkRuns

  // ----- what the puller does next

  // The last call asked for more input.
  ghost predicate Hungry(p: Params, ops: seq<Op>)
    requires p.batchSize >= 1
  {
    && ops != [] && ops[|ops| - 1].Next?
    && var c := CallAt(p, StateAfter(p, ops[..|ops| - 1])); Advance(p, c.before, c.from, c.horizon).0 == NeedMore
  }

  ghost function PullNext(p: Params, input: seq<Byte>, eager: bool, ops: seq<Op>): Op
    requires p.batchSize >= 1
  {
    PullOp(Max(p.batchSize, p.window), input, eager, ops, Hungry(p, ops))
  }

  // The first k operations on the core.
  ghost function PullOps(p: Params, input: seq<Byte>, eager: bool, k: nat): (ops: seq<Op>)
    requires p.batchSize >= 1
    ensures |ops| == k
  {
    if k == 0 then []
    else
      var ops := PullOps(p, input, eager, k - 1);
      ops + [PullNext(p, input, eager, ops)]
  }

  lemma {:induction false} PulledSnoc(p: Params, input: seq<Byte>, eager: bool, ops: seq<Op>)
    requires p.batchSize >= 1 && ops == PullOps(p, input, eager, |ops|)
    ensures var more := ops + [PullNext(p, input, eager, ops)]; more == PullOps(p, input, eager, |more|)
  {
  }

  lemma {:induction false} PulledPrefix(p: Params, input: seq<Byte>, eager: bool, k: nat, i: nat)
    requires p.batchSize >= 1 && i <= k
    ensures PullOps(p, input, eager, k)[..i] == PullOps(p, input, eager, i)
    decreases k
  {
    if i < k { PulledPrefix(p, input, eager, k - 1, i); }
  }

  // The puller feeds what comes next of the input, and no more than there is.
  lemma {:induction false} PulledInput(p: Params, input: seq<Byte>, eager: bool, k: nat)
    requires p.batchSize >= 1
    ensures Fed(PullOps(p, input, eager, k)) <= input
    decreases k
  {
    hide Fed, Hungry;
    if k == 0 {
      FedNothing([]);
    } else {
      var ops := PullOps(p, input, eager, k - 1);
      PulledInput(p, input, eager, k - 1);
      FedSnoc(ops, PullNext(p, input, eager, ops));
    }
  }

  // Step by step: a block of the input exactly when the call before asked for more, the end exactly after a block that
  // told it, and calls otherwise.
  lemma {:induction false} PulledExactly(p: Params, input: seq<Byte>, eager: bool, k: nat, i: nat)
    requires p.batchSize >= 1 && i < k
    ensures var ops := PullOps(p, input, eager, k);
      var before, n, fed := ops[..i], Max(p.batchSize, p.window), |Fed(ops[..i])|;
      var asked := i > 0 && ops[i - 1].Next?
        && var c := CallAt(p, StateAfter(p, ops[..i - 1])); Advance(p, c.before, c.from, c.horizon).0 == NeedMore;
      && fed <= |input|
      && (ops[i].Feed? <==> asked) && (asked ==> ops[i].bytes == input[fed..Min(fed + n, |input|)])
      && (ops[i].Finish? <==> i > 0 && ops[i - 1].Feed? && (|ops[i - 1].bytes| < n || (eager && fed == |input|)))
  {
    hide Fed, CallAt, StateAfter, Advance;
    var ops, before := PullOps(p, input, eager, k), PullOps(p, input, eager, i);
    PulledPrefix(p, input, eager, k, i);
    PulledPrefix(p, input, eager, k, i + 1);
    PulledInput(p, input, eager, i);
    assert ops[..i + 1][i] == ops[i] && before == ops[..i];
    if i > 0 { assert before[..i - 1] == ops[..i - 1]; }
  }

  // A call when it is time for one, and what comes after it.
  lemma {:induction false} PulledCall(p: Params, input: seq<Byte>, eager: bool, ops: seq<Op>, r: CoreState)
    requires p.batchSize >= 1 && ops == PullOps(p, input, eager, |ops|) && PullNext(p, input, eager, ops) == Next
    requires var c := CallAt(p, StateAfter(p, ops)); Advance(p, c.before, c.from, c.horizon).0 == r
    ensures ops + [Next] == PullOps(p, input, eager, |ops| + 1)
    ensures if r == NeedMore then Hungry(p, ops + [Next]) else PullNext(p, input, eager, ops + [Next]) == Next
  {
    hide CallAt, StateAfter, Advance, Fed;
    assert (ops + [Next])[..|ops|] == ops;
  }

  // A block when the core waits for one; the reader has told that it is the last, or not.
  lemma {:induction false} PulledBlock(p: Params, input: seq<Byte>, eager: bool, ops: seq<Op>, rest: seq<Byte>,
                                       n: nat, block: seq<Byte>, last: bool)
    requires p.batchSize >= 1 && ops == PullOps(p, input, eager, |ops|) && Hungry(p, ops) && Finish !in ops
    requires input == Fed(ops) + rest && n == Max(p.batchSize, p.window)
    requires block == rest[..Min(n, |rest|)] && (last <==> |rest| < n || (eager && |rest| == n))
    ensures var fed := if last then ops + [Feed(block), Finish] else ops + [Feed(block)];
      fed == PullOps(p, input, eager, |fed|) && PullNext(p, input, eager, fed) == Next
  {
    hide CallAt, StateAfter, Advance, PullOp, PullOps;
    var fed := ops + [Feed(block)];
    PullBlock(n, input, eager, ops, rest, block, last);
    PulledSnoc(p, input, eager, ops);
    if last {
      PulledSnoc(p, input, eager, fed);
      assert fed + [Finish] == ops + [Feed(block), Finish];
    }
  }

  // The pull side. The reader is what it has yet to deliver, and whether it reports the end of its
  // input along with the last bytes or only afterwards.
  class Chunker {
    const core: ChunkerCore
    const readSize: nat
    var eager: bool
    var rest: seq<Byte>

    // What the core has been put through.
    ghost var schedule: seq<Op>

    ghost function Input(): seq<Byte>
      reads this, core
    {
      core.stream + rest
    }

    // The core, all of the input fed.
    ghost function Whole(): View
      reads this, core
    {
      core.View().(stream := Input())
    }

    // A batch that holds a window, or a configuration that is sound on its own.
    ghost predicate Faithful() {
      core.P().Sound() || core.window <= core.batchSize
    }

    // Nothing has gone wrong so far.
    ghost predicate Right()
      reads core
    {
      NoneSpoils(core.P(), core.calls)
    }

    ghost predicate Valid()
      reads this, core
    {
      && core.Valid() && core.chunkStart <= core.consumed == |core.stream|
      && 1 <= readSize == Max(core.batchSize, core.window) && core.P().Fits(|Input()|)
      && (core.eof ==> rest == []) && (core.done ==> core.eof)
      && (core.window <= core.batchSize ==> core.Synced())
      && (!core.eof ==> core.consumed == 0 || core.window <= core.consumed)
      && History(core.P(), core.calls, core.View()) && (Faithful() ==> Right()) && Scheduled(core, schedule)
    }

    // The core has been put through just what it takes; it waits for more input or not.
    ghost predicate OnDemand(hungry: bool)
      reads this, core
    {
      && core.batchSize >= 1 && schedule == PullOps(core.P(), Input(), eager, |schedule|)
      && if hungry then Hungry(core.P(), schedule) else PullNext(core.P(), Input(), eager, schedule) == Op.Next
    }

    // What there is still to do, in calls of Next.
    ghost function Left(): nat
      requires core.chunkStart <= core.consumed
      reads this, core
    {
      core.Left() + 2 * |rest|
    }

    constructor (h: Scheme, window: nat, mask: Word, min: nat, max: nat, batchSize: nat, input: seq<Byte>, eager: bool)
      requires var p := Params(h, window, mask, min, max, batchSize); p.Valid() && p.Fits(|input|)
      ensures Valid() && fresh(core) && fresh(core.Repr())
      ensures core.P() == Params(h, window, mask, min, max, batchSize) && Input() == input && core.View() == EMPTY
      ensures OnDemand(false) && this.eager == eager && core.Current() == Chunk(0, [], false, 0)
    {
      hide QueueOk, History, NoneSpoils, ChunkerCore.Valid;
      var c := new ChunkerCore(h, window, mask, min, max, batchSize);
      core := c;
      readSize := Max(batchSize, window);
      this.eager := eager;
      rest := input;
      schedule := [];
      new;
      HistoryEmpty(c.P());
    }

    // Starts over on another reader.
    method Reset(input: seq<Byte>, eager: bool)
      requires Valid() && core.P().Fits(|input|)
      modifies this, core
      ensures Valid() && core.Repr() == old(core.Repr()) && Input() == input && core.View() == EMPTY
      ensures OnDemand(false) && this.eager == eager && core.Current() == Chunk(0, [], false, 0)
    {
      hide QueueOk, History, NoneSpoils, ChunkerCore.Valid;
      core.Reset();
      this.eager, rest, schedule := eager, input, [];
      HistoryEmpty(core.P());
    }

    // What one read brings, the last bytes or not.
    method Deliver(n: nat, eof: bool)
      requires Valid() && !core.eof && (core.window <= core.batchSize ==> core.UpToDate())
      requires n == Min(readSize, |rest|) && (eof <==> |rest| < readSize || (eager && |rest| == readSize))
      modifies `rest, `schedule, core
      ensures Valid() && core.Repr() == old(core.Repr()) && Input() == old(Input())
      ensures core.View() == old(core.View()).(stream := core.stream, eof := eof) && core.calls == old(core.calls)
      ensures core.Current() == old(core.Current()) && Left() <= old(Left()) && rest == old(rest[n..])
      ensures schedule == old(if eof then schedule + [Feed(rest[..n]), Finish] else schedule + [Feed(rest[..n])])
    {
      hide QueueOk, History, NoneSpoils, Params.Valid, Params.Sound;
      hide ChunkerCore.Valid, ChunkerCore.Synced, ChunkerCore.UpToDate, ChunkerCore.Left, Scheduled;
      Taken(core.stream, rest, n);
      FeedNext(core, schedule, rest[..n], eof);
      schedule := if eof then schedule + [Feed(rest[..n]), Finish] else schedule + [Feed(rest[..n])];
      rest := rest[n..];
    }

    // Reads up to readSize bytes into the core; false once the reader is exhausted.
    method FillCore() returns (more: bool)
      requires Valid() && (core.window <= core.batchSize && !core.eof ==> core.UpToDate())
      modifies `rest, `schedule, core.Repr()
      ensures Valid() && core.Repr() == old(core.Repr())
      ensures !old(core.eof) && old(OnDemand(true)) ==> OnDemand(false)
      ensures Input() == old(Input()) && core.emitted == old(core.emitted) && core.calls == old(core.calls)
      ensures core.chunkStart == old(core.chunkStart) && core.done == old(core.done)
      ensures core.Current() == old(core.Current()) && Left() <= old(Left())
      ensures rest == old(if core.eof then rest else rest[Min(readSize, |rest|)..])
      ensures core.eof == old(core.eof || |rest| < readSize || (eager && |rest| == readSize))
      ensures more == !core.eof
    {
      hide History, NoneSpoils, ChunkerCore.Valid, ChunkerCore.Left, ChunkerCore.UpToDate, ChunkerCore.Synced;
      hide Scheduled, PullOps, PullNext, Hungry, Params.Fits;
      if core.eof { return false; }
      var n := Min(readSize, |rest|);
      var eof := |rest| < readSize || (eager && |rest| == readSize);
      ScheduledMeans(core, schedule);
      if OnDemand(true) { PulledBlock(core.P(), Input(), eager, schedule, rest, readSize, rest[..n], eof); }
      Deliver(n, eof);
      more := !eof;
    }

    // The next chunk, or false once there is none. The chunks are those of the naive chunker, so far or all of them,
    // if and only if no call spoiled them.
    method Next() returns (ok: bool)
      requires Valid()
      modifies `rest, `schedule, core.Repr()
      ensures Valid() && fresh(core.Repr() - old(core.Repr())) && Input() == old(Input())
      ensures old(OnDemand(false)) ==> OnDemand(false)
      ensures ok ==> core.emitted == old(core.emitted) + [core.Current()] && Left() < old(Left())
      ensures !ok ==> core.done && core.emitted == old(core.emitted) && Left() <= old(Left())
      ensures !ok ==> core.Current() == Chunk(0, [], false, 0)
      ensures OnCourse(core.P(), Whole().(eof := true)) <==> Right()
      ensures !ok ==> (core.emitted == Naive(core.P(), Input(), 0) <==> Right())
      ensures Faithful() || (core.max == MAX_INT && !core.eof) ==> Right()
    {
      hide QueueOk, History, NoneSpoils, Scan, Naive, Conclude, OnCourse, Scheduled, Chunker.OnDemand;
      hide ChunkerCore.Ready, ChunkerCore.UpToDate, ChunkerCore.Synced;
      while true
        invariant Valid() && fresh(core.Repr() - old(core.Repr())) && Input() == old(Input())
        invariant core.emitted == old(core.emitted) && Left() <= old(Left())
        invariant old(OnDemand(false)) ==> OnDemand(false)
        decreases if core.eof then 0 else 1 + |rest|
      {
        var r := AdvanceCore();
        if r == Emitted { return true; }
        if r == CoreDone { return false; }
        var more := FillCore();
      }
    }

    // The chunks so far, or all of them, are right exactly when no call spoiled them.
    lemma {:induction false} Judged()
      requires Valid()
      ensures OnCourse(core.P(), Whole().(eof := true)) <==> Right()
      ensures core.done ==> (core.emitted == Naive(core.P(), Input(), 0) <==> Right())
      ensures core.max == MAX_INT && !core.eof ==> Right()
    {
      hide QueueOk, Naive, History, NoneSpoils, OnCourse, Scheduled;
      HistoryFollows(core.P(), core.calls, core.View(), Whole().(eof := true));
      OnCourseExactly(core.P(), core.calls, Whole().(eof := true));
      if core.max == MAX_INT && !core.eof { UnboundedOnCourse(core.P(), core.calls, core.View()); }
    }

    // One call of the core's next.
    method AdvanceCore() returns (r: CoreState)
      requires Valid()
      modifies core.Repr(), `schedule
      ensures Valid() && fresh(core.Repr() - old(core.Repr())) && Input() == old(Input())
      ensures old(OnDemand(false)) ==> OnDemand(r == NeedMore)
      ensures core.Reported(r, old(core.emitted), old(core.Current()))
      ensures core.eof == old(core.eof) && (r == NeedMore ==> !core.eof) && (r == CoreDone ==> core.done)
      ensures r == NeedMore && core.window <= core.batchSize ==> core.UpToDate()
      ensures if r == Emitted then Left() < old(Left()) else Left() <= old(Left())
      ensures OnCourse(core.P(), Whole().(eof := true)) <==> Right()
      ensures r == CoreDone ==> (core.emitted == Naive(core.P(), Input(), 0) <==> Right())
      ensures core.max == MAX_INT && !core.eof ==> Right()
    {
      hide QueueOk, Scan, Naive, History, NoneSpoils, Conclude, OnCourse, Scheduled, PullOps, PullNext, Hungry;
      hide CallAt, StateAfter, ChunkerCore.UpToDate, ChunkerCore.Synced, ChunkerCore.LeadIn, ChunkerCore.EvaluatedOnce;
      ghost var onDemand := OnDemand(false);
      ScheduledMeans(core, schedule);
      r := CallNext(core, schedule);
      if onDemand { PulledCall(core.P(), Input(), eager, schedule, r); }
      schedule := schedule + [Op.Next];
      Judged();
    }
  }

  // All chunks of an input, pulled one by one: those the puller's schedule accounts for. They are the naive chunks if
  // and only if no call of it spoils them, and none does when a batch holds a window.
  method PullAll(p: Params, input: seq<Byte>, eager: bool) returns (chunks: seq<Chunk>, ghost ops: seq<Op>)
    requires p.Valid() && p.Fits(|input|)
    ensures ops == PullOps(p, input, eager, |ops|)
    ensures StateAfter(p, ops).view == View(input, |input|, true, true, chunks)
    ensures History(p, CallsAfter(p, ops), StateAfter(p, ops).view)
    ensures chunks == Naive(p, input, 0) <==> NoneSpoils(p, CallsAfter(p, ops))
    ensures p.Sound() || p.window <= p.batchSize ==> chunks == Naive(p, input, 0)
    ensures Joined(chunks) == input && TilesTo(p, chunks, |input|, true)
    ensures p.min >= 1 || p.max == MAX_INT ==> AllFull(chunks)
  {
    hide QueueOk, Naive, History, NoneSpoils, OnCourse, ChunkerCore.Valid, PullOps, PullNext, Hungry;
    hide StateAfter, CallsAfter;
    var c := new Chunker(p.scheme, p.window, p.mask, p.min, p.max, p.batchSize, input, eager);
    chunks := [];
    var ok := true;
    while ok
      invariant c.Valid() && fresh(c) && fresh(c.core) && fresh(c.core.Repr()) && c.core.P() == p && c.Input() == input
      invariant chunks == c.core.emitted && c.OnDemand(false) && c.eager == eager
      invariant !ok ==> c.core.done && (chunks == Naive(p, input, 0) <==> c.Right())
      decreases c.Left(), if ok then 1 else 0
    {
      ok := c.Next();
      if ok { chunks := chunks + [Chunk(c.core.offset, c.core.chunk, c.core.contentDefined, c.core.sumv)]; }
    }
    ops := c.schedule;
    assert c.core.View() == View(input, c.core.chunkStart, true, true, chunks);
    HistoryTiles(p, c.core.calls, c.core.View());
    assert input[..|input|] == input;
  }
}
