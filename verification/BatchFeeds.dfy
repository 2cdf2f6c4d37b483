/** The pull side of batching, and whole runs of either side. */
module BatchFeeds {
  import opened Words
  import opened Hashing
  import opened ChunkSpec
  import opened ChunkLaws
  import opened ChunkDrain
  import opened ChunkRuns
  import opened ChunkWriting
  import opened BatchRolling
  import opened BatchRuns

  // ----- what the puller does next

  // The last call asked for more input.
  ghost predicate Starved(p: RollParams, ops: seq<Op>)
    requires p.Valid()
  {
    && ops != [] && ops[|ops| - 1].Next?
    && RollNext(p, RollRun(p, NOTHING, ops[..|ops| - 1])).0 == NeedMore
  }

  // The first k operations on the core.
  ghost function RollOps(p: RollParams, input: seq<Byte>, eager: bool, k: nat): (ops: seq<Op>)
    requires p.Valid()
    ensures |ops| == k
  {
    if k == 0 then []
    else
      var ops := RollOps(p, input, eager, k - 1);
      ops + [PullOp(p.batchSize, input, eager, ops, Starved(p, ops))]
  }

  // ops is what the puller does first; it waits for more input or not.
  ghost predicate InTurn(p: RollParams, input: seq<Byte>, eager: bool, ops: seq<Op>, starved: bool)
    requires p.Valid()
  {
    && ops == RollOps(p, input, eager, |ops|) && Starved(p, ops) == starved
    && (!starved ==> PullOp(p.batchSize, input, eager, ops, false) == Next)
  }

  lemma {:induction false} InTurnFirst(p: RollParams, input: seq<Byte>, eager: bool)
    requires p.Valid()
    ensures InTurn(p, input, eager, [], false)
  {
  }

  lemma {:induction false} InTurnSnoc(p: RollParams, input: seq<Byte>, eager: bool, ops: seq<Op>)
    requires p.Valid() && ops == RollOps(p, input, eager, |ops|)
    ensures var more := ops + [PullOp(p.batchSize, input, eager, ops, Starved(p, ops))];
      more == RollOps(p, input, eager, |more|)
  {
  }

  // A call when it is time for one, and what comes after it.
  lemma {:induction false} InTurnCall(p: RollParams, input: seq<Byte>, eager: bool, ops: seq<Op>, r: CoreState)
    requires p.Valid() && InTurn(p, input, eager, ops, false) && RollNext(p, RollRun(p, NOTHING, ops)).0 == r
    ensures InTurn(p, input, eager, ops + [Next], r == NeedMore)
  {
    hide RollNext, RollRun, Fed, RollOps, RollParams.Valid;
    InTurnSnoc(p, input, eager, ops);
    assert (ops + [Next])[..|ops|] == ops;
  }

  // A block when the core waits for one; the reader has told that it is the last, or not.
  lemma {:induction false} InTurnBlock(p: RollParams, input: seq<Byte>, eager: bool, ops: seq<Op>, rest: seq<Byte>,
                                       block: seq<Byte>, last: bool)
    requires p.Valid() && InTurn(p, input, eager, ops, true) && Finish !in ops && input == Fed(ops) + rest
    requires block == rest[..Min(p.batchSize, |rest|)]
    requires last <==> |rest| < p.batchSize || (eager && |rest| == p.batchSize)
    ensures InTurn(p, input, eager, if last then ops + [Feed(block), Finish] else ops + [Feed(block)], false)
  {
    hide RollNext, RollRun, Fed, RollOps, PullOp, RollParams.Valid;
    PullBlock(p.batchSize, input, eager, ops, rest, block, last);
    InTurnSnoc(p, input, eager, ops);
    if last {
      InTurnSnoc(p, input, eager, ops + [Feed(block)]);
      assert (ops + [Feed(block)]) + [Finish] == ops + [Feed(block), Finish];
    }
  }

  // The reader is what it has yet to deliver, and whether it reports the end of its input along with the last bytes
  // or only afterwards.
  class BatchRoller {
    const core: BatchRollerCore
    const readSize: nat
    var eager: bool
    var rest: seq<Byte>

    // All the core has been put through.
    ghost var schedule: seq<Op>

    ghost function Input(): seq<Byte>
      reads this, core
    {
      core.stream + rest
    }

    ghost predicate Valid()
      reads this, core
    {
      && core.Valid() && core.P().Valid() && 1 <= readSize == core.batchSize
      && RollOk(core.P(), core.View()) && (core.eof ==> rest == [])
      && core.View() == RollRun(core.P(), NOTHING, schedule)
    }

    // The core has been put through just what it takes; it waits for more input or not.
    ghost predicate OnDemand(starved: bool)
      reads this, core
    {
      core.P().Valid() && InTurn(core.P(), Input(), eager, schedule, starved)
    }

    constructor (h: Scheme, window: nat, batchSize: nat, input: seq<Byte>, eager: bool)
      requires RollParams(h, window, batchSize).Valid()
      ensures Valid() && fresh(core) && core.P() == RollParams(h, window, batchSize)
      ensures core.View() == NOTHING && Input() == input && core.Current() == NO_BATCH
      ensures OnDemand(false) && this.eager == eager
    {
      hide RollOk, RollRun, InTurn, BatchRollerCore.Valid;
      NothingRolled(RollParams(h, window, batchSize));
      InTurnFirst(RollParams(h, window, batchSize), input, eager);
      core := new BatchRollerCore(h, window, batchSize);
      readSize, this.eager, rest, schedule := batchSize, eager, input, [];
    }

    // Starts over on another reader.
    method Reset(input: seq<Byte>, eager: bool)
      requires Valid()
      modifies this, core
      ensures Valid() && core.View() == NOTHING && Input() == input && core.Current() == NO_BATCH
      ensures OnDemand(false) && this.eager == eager
    {
      hide RollOk, RollRun, InTurn, BatchRollerCore.Valid;
      NothingRolled(core.P());
      InTurnFirst(core.P(), input, eager);
      core.Reset();
      this.eager, rest, schedule := eager, input, [];
    }

    // What one read brings, the last bytes or not.
    method Deliver(n: nat, last: bool)
      requires Valid() && !core.eof
      requires n == Min(readSize, |rest|) && (last <==> |rest| < readSize || (eager && |rest| == readSize))
      modifies `rest, `schedule, core
      ensures Valid() && Input() == old(Input()) && rest == old(rest[n..])
      ensures core.View() == old(core.View()).(stream := core.stream, eof := last)
      ensures core.Current() == old(core.Current())
      ensures schedule == old(if last then schedule + [Feed(rest[..n]), Finish] else schedule + [Feed(rest[..n])])
    {
      hide Chained, RollRun, RollParams.Valid;
      ghost var p, v, ops := core.P(), core.View(), schedule;
      Taken(core.stream, rest, n);
      RollFeeds(p, ops, v, rest[..n]);
      core.Feed(rest[..n]);
      if last {
        RollFinished(p, ops + [Feed(rest[..n])], core.View());
        core.Finish();
        assert (ops + [Feed(rest[..n])]) + [Finish] == ops + [Feed(rest[..n]), Finish];
      }
      schedule := if last then schedule + [Feed(rest[..n]), Finish] else schedule + [Feed(rest[..n])];
      rest := rest[n..];
    }

    // Reads up to readSize bytes into the core; false once the reader is exhausted.
    method FillCore() returns (more: bool)
      requires Valid() && !core.done
      modifies `rest, `schedule, core
      ensures Valid() && Input() == old(Input())
      ensures !old(core.eof) && old(OnDemand(true)) ==> OnDemand(false)
      ensures core.View() == old(core.View()).(stream := core.stream, eof := core.eof)
      ensures core.Current() == old(core.Current())
      ensures rest == old(if core.eof then rest else rest[Min(readSize, |rest|)..])
      ensures core.eof == old(core.eof || |rest| < readSize || (eager && |rest| == readSize))
      ensures more == !core.eof
    {
      hide RollOk, RollNext, RollRun, InTurn, RollParams.Valid;
      if core.eof { return false; }
      var n := Min(readSize, |rest|);
      var last := |rest| < readSize || (eager && |rest| == readSize);
      RollFed(core.P(), schedule);
      if OnDemand(true) { InTurnBlock(core.P(), Input(), eager, schedule, rest, rest[..n], last); }
      Deliver(n, last);
      more := !last;
    }

    // The next batch, or false once there is none. A block is read exactly when too few bytes are there for a window.
    method Next() returns (ok: bool)
      requires Valid()
      modifies `rest, `schedule, core
      ensures Valid() && Input() == old(Input())
      ensures old(OnDemand(false)) ==> OnDemand(false)
      ensures old(core.done || core.rolled + core.window <= |core.stream|)
        ==> rest == old(rest) && core.eof == old(core.eof)
      ensures (rest == old(rest) && core.eof == old(core.eof))
        || |core.stream| < old(core.rolled) + core.window + readSize
      ensures ok <==> !old(core.done) && old(core.rolled) + core.window <= |core.stream|
      ensures if ok then core.batches == old(core.batches) + [core.Current()] && old(core.rolled) < core.rolled
              else core.batches == old(core.batches) && core.rolled == old(core.rolled)
      ensures ok ==> old(core.rolled) < |Input()|
      ensures SumsIn(core.batches) <= AllSums(core.P(), core.stream)
      ensures !ok ==> core.done && core.Current() == NO_BATCH && SumsIn(core.batches) == AllSums(core.P(), Input())
    {
      hide RollOk, RollNext, AllSums, SumsIn, RollRun, InTurn;
      while true
        invariant Valid() && Input() == old(Input()) && core.done == old(core.done)
        invariant core.batches == old(core.batches) && core.rolled == old(core.rolled)
        invariant old(OnDemand(false)) ==> OnDemand(false)
        invariant old(core.done || core.rolled + core.window <= |core.stream|)
          ==> rest == old(rest) && core.eof == old(core.eof) && |core.stream| == old(|core.stream|)
        invariant (rest == old(rest) && core.eof == old(core.eof) && |core.stream| == old(|core.stream|))
          || |core.stream| < old(core.rolled) + core.window + readSize
        decreases if core.eof then 0 else 1 + |rest|
      {
        var r := AdvanceCore();
        if r == Emitted { return true; }
        if r == CoreDone { return false; }
        var more := FillCore();
      }
    }

    // One call of the core's next.
    method AdvanceCore() returns (r: CoreState)
      requires Valid()
      modifies `schedule, core
      ensures Valid() && Input() == old(Input()) && core.eof == old(core.eof) && core.stream == old(core.stream)
      ensures old(OnDemand(false)) ==> OnDemand(r == NeedMore)
      ensures r == Emitted <==> !old(core.done) && old(core.rolled) + core.window <= |core.stream|
      ensures r == NeedMore <==> !old(core.done) && !core.eof && |core.stream| < old(core.rolled) + core.window
      ensures r == NeedMore ==> !core.done
      ensures if r == Emitted
              then core.batches == old(core.batches) + [core.Current()] && old(core.rolled) < core.rolled
              else core.batches == old(core.batches) && core.rolled == old(core.rolled)
      ensures r == CoreDone ==> core.done && core.Current() == NO_BATCH
      ensures r == CoreDone ==> SumsIn(core.batches) == AllSums(core.P(), Input())
      ensures SumsIn(core.batches) <= AllSums(core.P(), core.stream)
    {
      hide RollNext, AllSums, SumsIn, RollRun, InTurn, Chained, Scheme.Of;
      ghost var p, v, input, ops, onDemand := core.P(), core.View(), Input(), schedule, OnDemand(false);
      RollOkStep(p, v, Op.Next);
      RollRunSnoc(p, ops, Op.Next);
      r := core.Next();
      RolledSoFar(p, core.View());
      if onDemand { InTurnCall(p, input, eager, ops, r); }
      schedule := schedule + [Op.Next];
      assert core.done ==> Input() == core.stream;
    }
  }

  // All batches of an input, pulled one by one: those the puller's schedule accounts for, which cover every window.
  method PullSums(h: Scheme, window: nat, batchSize: nat, input: seq<Byte>, eager: bool)
    returns (batches: seq<Batch>, ghost ops: seq<Op>)
    requires RollParams(h, window, batchSize).Valid()
    ensures var p := RollParams(h, window, batchSize);
      && ops == RollOps(p, input, eager, |ops|) && RollRun(p, NOTHING, ops).done
      && batches == RollRun(p, NOTHING, ops).batches
    ensures SumsIn(batches) == AllSums(RollParams(h, window, batchSize), input)
    ensures exists next :: Chained(RollParams(h, window, batchSize), input, batches, next)
  {
    hide AllSums, SumsIn, Chained, RollRun, RollOps, RollParams.Valid;
    var c := new BatchRoller(h, window, batchSize, input, eager);
    batches := [];
    var ok := true;
    while ok
      invariant c.Valid() && fresh(c) && fresh(c.core) && c.core.P() == RollParams(h, window, batchSize)
      invariant c.Input() == input && batches == c.core.batches && c.OnDemand(false) && c.eager == eager
      invariant !ok ==> c.core.done && SumsIn(batches) == AllSums(c.core.P(), input)
      decreases |input| - c.core.rolled, if ok then 1 else 0
    {
      ok := c.Next();
      if ok { batches := batches + [Batch(c.core.offset, c.core.data, c.core.sums)]; }
    }
    assert input == c.core.stream;
    ops := c.schedule;
  }

  // Calls Next until it says no. That leaves, before Close, less than a window and a batch of what was written.
  method TakeBatches(w: BatchWriter) returns (batches: seq<Batch>, ghost n: nat)
    requires w.Valid()
    modifies w.core, w`schedule
    ensures w.Valid() && w.Bytes() == old(w.Bytes()) && w.core.eof == old(w.core.eof)
    ensures w.core.batches == old(w.core.batches) + batches
    ensures w.schedule == old(w.schedule) + Nexts(n) && n <= |w.core.stream| + 1
    ensures !w.core.eof ==> |w.Bytes()| < w.core.rolled + w.core.window + w.core.batchSize
    ensures w.core.eof ==> w.core.done && SumsIn(w.core.batches) == AllSums(w.core.P(), w.Bytes())
  {
    hide BatchWriter.CoreOk, AllSums, SumsIn, RollNext, RollRun, Nexts;
    batches, n := [], 0;
    NextsNone(w.schedule);
    var ok := true;
    while ok
      invariant w.Valid() && w.Bytes() == old(w.Bytes()) && w.core.eof == old(w.core.eof)
      invariant w.core.batches == old(w.core.batches) + batches && w.core.stream == old(w.core.stream)
      invariant w.schedule == old(w.schedule) + Nexts(n) && n <= w.core.rolled + (if ok then 0 else 1)
      invariant n > (if ok then 0 else 1) ==> w.core.rolled <= |w.core.stream|
      invariant !ok && !w.core.eof ==> |w.Bytes()| < w.core.rolled + w.core.window + w.core.batchSize
      invariant !ok && w.core.eof ==> w.core.done && SumsIn(w.core.batches) == AllSums(w.core.P(), w.Bytes())
      decreases |w.core.stream| - w.core.rolled, if ok then 1 else 0
    {
      NextsSnoc(old(w.schedule), n);
      ok := w.Next();
      n := n + 1;
      if ok { batches := batches + [Batch(w.core.offset, w.core.data, w.core.sums)]; }
    }
  }

  // A write of a window or more but less than a batch is held back whole: false, though the bytes are there.
  method HeldWrite(h: Scheme, window: nat, batchSize: nat, bytes: seq<Byte>) returns (ok: bool)
    requires RollParams(h, window, batchSize).Valid() && window <= |bytes| < batchSize
    ensures !ok
  {
    hide Batches, HeldBack, RollRun, AllSums, SumsIn, RollNext;
    var w := new BatchWriter(h, window, batchSize);
    KeptBack(batchSize, [], [], [], bytes);
    assert [] + bytes == bytes;
    var written := w.Write(bytes);
    ok := w.Next();
  }

  // One operation on the writer: a write, a call of Next or Close; the batch it hands out, if any.
  method Push(w: BatchWriter, op: Op) returns (out: seq<Batch>)
    requires w.Valid()
    modifies w, w.core
    ensures w.Valid() && w.core.batches == old(w.core.batches) + out
    ensures w.Bytes() == if op.Feed? && !old(w.core.eof) then old(w.Bytes()) + op.bytes else old(w.Bytes())
    ensures w.core.eof == (old(w.core.eof) || op.Finish?)
    ensures (w.schedule, w.pending) == old(match op
      case Next => (w.schedule + [Next], w.pending)
      case Finish => (w.schedule + Flushed(w.pending) + [Finish], [])
      case Feed(bytes) =>
        if w.core.eof then (w.schedule, w.pending)
        else (w.schedule + Batches(w.core.batchSize, w.pending + bytes),
              HeldBack(w.core.batchSize, w.pending + bytes)))
  {
    hide BatchWriter.CoreOk, AllSums, SumsIn, Batches, HeldBack;
    out := [];
    match op
    case Feed(bytes) =>
      var written := w.Write(bytes);
    case Finish =>
      w.Close();
    case Next =>
      var ok := w.Next();
      if ok { out := [Batch(w.core.offset, w.core.data, w.core.sums)]; }
  }

  // All batches of what is written before the first Close, however writes and calls of Next are interleaved: those the
  // core's schedule accounts for, which cover every window.
  method PushSums(h: Scheme, window: nat, batchSize: nat, ops: seq<Op>) returns (batches: seq<Batch>)
    requires RollParams(h, window, batchSize).Valid()
    ensures var p := RollParams(h, window, batchSize);
      && batches == RollRun(p, NOTHING, Ended(PushedAll(batchSize, ops))).batches
      && SumsIn(batches) == AllSums(p, Fed(ops)) && exists next :: Chained(p, Fed(ops), batches, next)
  {
    hide AllSums, SumsIn, Chained, Fed, RollRun, RollNext, Pushed, Ended, Nexts;
    ghost var p := RollParams(h, window, batchSize);
    var w := new BatchWriter(h, window, batchSize);
    batches := [];
    FedNothing(ops);
    PushedNone(batchSize, ops);
    for i := 0 to |ops|
      invariant w.Valid() && fresh(w) && fresh(w.core) && w.core.P() == p
      invariant batches == w.core.batches && w.Bytes() == Fed(ops[..i]) && (w.core.eof <==> Finish in ops[..i])
      invariant (w.schedule, w.pending) == Pushed(batchSize, ops[..i])
    {
      FedStep(ops, i);
      PushedSnoc(batchSize, ops, i);
      var out := Push(w, ops[i]);
      batches := batches + out;
    }
    assert ops[..|ops|] == ops;
    w.Close();
    var last, n := TakeBatches(w);
    batches := batches + last;
    PushedRuns(w, ops, n);
    assert w.core.stream == w.Bytes();
    assert Chained(p, Fed(ops), batches, w.core.rolled);
  }

  // A writer closed and drained has put its core through the schedule of its writes run to the end.
  lemma {:induction false} PushedRuns(w: BatchWriter, ops: seq<Op>, n: nat)
    requires w.Valid() && w.core.done && n <= |w.core.stream| + 1
    requires w.schedule == PushedAll(w.core.batchSize, ops) + [Finish] + Nexts(n)
    ensures w.core.View() == RollRun(w.core.P(), NOTHING, Ended(PushedAll(w.core.batchSize, ops)))
  {
    hide Fed, PushedAll, RollRun, RollNext, Nexts, Chained;
    var sched := PushedAll(w.core.batchSize, ops);
    RollFed(w.core.P(), w.schedule);
    FedFinished(sched + [Finish], n);
    FedSnoc(sched, Finish);
    RollEnds(w.core.P(), sched, n);
  }

  // The documented loop: after every write the batches it completed are taken, and after Close the last ones.
  method LoopSums(h: Scheme, window: nat, batchSize: nat, writes: seq<seq<Byte>>) returns (batches: seq<Batch>)
    requires RollParams(h, window, batchSize).Valid()
    ensures SumsIn(batches) == AllSums(RollParams(h, window, batchSize), Flatten(writes))
  {
    hide AllSums, SumsIn, Flatten, RollParams.Valid, BatchWriter.CoreOk, Batches, HeldBack, Nexts, RollRun, RollNext;
    var w := new BatchWriter(h, window, batchSize);
    batches := [];
    FlattenNone(writes);
    for i := 0 to |writes|
      invariant w.Valid() && fresh(w) && fresh(w.core) && w.core.P() == RollParams(h, window, batchSize)
      invariant w.Bytes() == Flatten(writes[..i]) && !w.core.eof && batches == w.core.batches
      invariant i > 0 ==> |w.Bytes()| < w.core.rolled + window + batchSize
    {
      assert writes[..i + 1] == writes[..i] + [writes[i]];
      FlattenSnoc(writes[..i], writes[i]);
      var written := w.Write(writes[i]);
      var out, n := TakeBatches(w);
      batches := batches + out;
    }
    assert writes[..|writes|] == writes;
    w.Close();
    var last, n := TakeBatches(w);
    batches := batches + last;
  }

  // Pushed or pulled, the same bytes give the same sums.
  method SumsBothWays(h: Scheme, window: nat, batchSize: nat, ops: seq<Op>, input: seq<Byte>, eager: bool)
    returns (pushed: seq<Batch>, pulled: seq<Batch>)
    requires RollParams(h, window, batchSize).Valid() && input == Fed(ops)
    ensures SumsIn(pushed) == SumsIn(pulled)
  {
    ghost var none;
    pushed := PushSums(h, window, batchSize, ops);
    pulled, none := PullSums(h, window, batchSize, input, eager);
  }
}
