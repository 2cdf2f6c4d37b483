/** Every schedule of the batching core, and the push side in front of it. */
module BatchRuns {
  import opened Words
  import opened Hashing
  import opened ChunkSpec
  import opened ChunkLaws
  import opened ChunkDrain
  import opened BatchRolling
  import opened ChunkWriting

  // ----- schedules

  ghost function RollStep(p: RollParams, v: RollView, op: Op): (v': RollView)
    requires p.Valid()
    ensures op.Next? ==> v'.stream == v.stream && v'.eof == v.eof
  {
    match op
    case Feed(bytes) => if v.eof then v else v.(stream := v.stream + bytes)
    case Finish => v.(eof := true)
    case Next => RollNext(p, v).1
  }

  ghost function RollRun(p: RollParams, v: RollView, ops: seq<Op>): RollView
    requires p.Valid()
  {
    if ops == [] then v else RollStep(p, RollRun(p, v, ops[..|ops| - 1]), ops[|ops| - 1])
  }

  lemma {:induction false} RollRunSnoc(p: RollParams, ops: seq<Op>, op: Op)
    requires p.Valid()
    ensures RollRun(p, NOTHING, ops + [op]) == RollStep(p, RollRun(p, NOTHING, ops), op)
  {
    assert (ops + [op])[..|ops|] == ops;
  }

  // A run that is done stays what it is up to the end that surely comes.
  lemma {:induction false} RollEnds(p: RollParams, ops: seq<Op>, n: nat)
    requires p.Valid() && n <= 2 * |Fed(ops)| + 2 && RollRun(p, NOTHING, ops + [Finish] + Nexts(n)).done
    ensures RollRun(p, NOTHING, Ended(ops)) == RollRun(p, NOTHING, ops + [Finish] + Nexts(n))
  {
    var sofar, more := ops + [Finish] + Nexts(n), 2 * |Fed(ops)| + 2 - n;
    RollAppend(p, NOTHING, sofar, Nexts(more));
    RollStaysDone(p, RollRun(p, NOTHING, sofar), more);
    assert sofar + Nexts(more) == Ended(ops);
  }

  lemma {:induction false} RollOkStep(p: RollParams, v: RollView, op: Op)
    requires p.Valid() && RollOk(p, v)
    ensures RollOk(p, RollStep(p, v, op))
  {
    hide Chained, BatchAt, AllSums;
    match op
    case Feed(bytes) => ChainExtends(p, v.stream, bytes, v.batches, v.next);
    case Finish =>
    case Next =>
      if !v.done && v.next + p.window <= |v.stream| {
        ChainGrows(p, v.stream, v.batches, v.next);
      }
  }

  // Another batch, from where the last one ended.
  lemma {:induction false} ChainGrows(p: RollParams, s: seq<Byte>, bs: seq<Batch>, next: nat)
    requires p.Valid() && Chained(p, s, bs, next) && next + p.window <= |s|
    ensures var b := BatchAt(p, s, next); Chained(p, s, bs + [b], next + |b.sums|)
    ensures var b := BatchAt(p, s, next);
      next + |b.bytes| <= |s| && next + |b.sums| == next + |b.bytes| - p.window + 1
  {
    hide AllSums;
    var b := BatchAt(p, s, next);
    SumsCount(p, b.bytes);
    assert (bs + [b])[..|bs|] == bs;
  }

  lemma {:induction false} RollOkRun(p: RollParams, v: RollView, ops: seq<Op>)
    requires p.Valid() && RollOk(p, v)
    ensures RollOk(p, RollRun(p, v, ops))
    decreases |ops|
  {
    if ops != [] {
      RollOkRun(p, v, ops[..|ops| - 1]);
      RollOkStep(p, RollRun(p, v, ops[..|ops| - 1]), ops[|ops| - 1]);
    }
  }

  lemma {:induction false} RollFed(p: RollParams, ops: seq<Op>)
    requires p.Valid()
    ensures var v := RollRun(p, NOTHING, ops); v.stream == Fed(ops) && (v.eof <==> Finish in ops)
    decreases |ops|
  {
    hide RollNext;
    if ops != [] {
      var init, op := ops[..|ops| - 1], ops[|ops| - 1];
      assert ops == init + [op];
      RollFed(p, init);
      FedSnoc(init, op);
    }
  }

  lemma {:induction false} RollAppend(p: RollParams, v: RollView, xs: seq<Op>, ys: seq<Op>)
    requires p.Valid()
    ensures RollRun(p, v, xs + ys) == RollRun(p, RollRun(p, v, xs), ys)
    decreases |ys|
  {
    if ys == [] {
      assert xs + ys == xs;
    } else {
      assert (xs + ys)[..|xs + ys| - 1] == xs + ys[..|ys| - 1];
      RollAppend(p, v, xs, ys[..|ys| - 1]);
    }
  }

  // After Finish a call of Next rolls at least one more window or ends the run.
  lemma {:induction false} RollProgresses(p: RollParams, v: RollView)
    requires p.Valid() && v.eof && !v.done
    ensures var v' := RollStep(p, v, Next); v'.eof && (v'.next != v.next || v'.done)
    ensures var v' := RollStep(p, v, Next); v'.next != v.next ==> v.next < v'.next && v.next < |v.stream|
    ensures |v.stream| <= v.next + p.window ==> RollStep(p, v, Next).done
  {
  }

  lemma {:induction false} DoneStays(p: RollParams, v: RollView)
    requires p.Valid() && v.done
    ensures RollStep(p, v, Next) == v
  {
  }

  // After Finish, one call of Next per window position left and one more roll everything.
  lemma {:induction false} RollDrained(p: RollParams, v: RollView, n: nat)
    requires p.Valid() && v.eof && |v.stream| < v.next + p.window + n
    ensures n > 0 ==> RollRun(p, v, Nexts(n)).done
    decreases n
  {
    hide RollNext;
    if n > 0 {
      var w := RollStep(p, v, Next);
      if v.done { DoneStays(p, v); } else { RollProgresses(p, v); }
      assert Nexts(n) == [Next] + Nexts(n - 1);
      RollAppend(p, v, [Next], Nexts(n - 1));
      assert [Next][..0] == [];
      assert RollRun(p, v, [Next]) == w;
      if w.done { RollStaysDone(p, w, n - 1); } else { RollDrained(p, w, n - 1); }
    }
  }

  lemma {:induction false} RollStaysDone(p: RollParams, v: RollView, n: nat)
    requires p.Valid() && v.done
    ensures RollRun(p, v, Nexts(n)) == v
    decreases n
  {
    if n > 0 {
      assert Nexts(n)[..n - 1] == Nexts(n - 1);
      RollStaysDone(p, v, n - 1);
    }
  }

  lemma {:induction false} NothingRolled(p: RollParams)
    requires p.Valid()
    ensures RollOk(p, NOTHING) && RollRun(p, NOTHING, []) == NOTHING && Flatten([]) == []
  {
  }

  // More bytes after a schedule.
  lemma {:induction false} RollFeeds(p: RollParams, ops: seq<Op>, v: RollView, bytes: seq<Byte>)
    requires p.Valid() && v == RollRun(p, NOTHING, ops) && RollOk(p, v) && !v.eof
    ensures var v' := v.(stream := v.stream + bytes); RollOk(p, v') && v' == RollRun(p, NOTHING, ops + [Feed(bytes)])
  {
    hide RollOk, RollNext, RollRun;
    RollOkStep(p, v, Feed(bytes));
    RollRunSnoc(p, ops, Feed(bytes));
  }

  lemma {:induction false} RollFinished(p: RollParams, ops: seq<Op>, v: RollView)
    requires p.Valid() && v == RollRun(p, NOTHING, ops) && RollOk(p, v)
    ensures var v' := v.(eof := true); RollOk(p, v') && v' == RollRun(p, NOTHING, ops + [Finish])
  {
    hide RollOk, RollNext, RollRun;
    RollOkStep(p, v, Finish);
    RollRunSnoc(p, ops, Finish);
  }

  // What has been rolled is the start of the stream's window checksums; once done, all of them.
  lemma {:induction false} RolledSoFar(p: RollParams, v: RollView)
    requires p.Valid() && RollOk(p, v)
    ensures SumsIn(v.batches) <= AllSums(p, v.stream)
    ensures v.done ==> SumsIn(v.batches) == AllSums(p, v.stream)
  {
    ChainCovers(p, v.stream, v.batches, v.next);
  }

  // Whatever the split into feeds and the interleaving with next, finishing and draining yields the checksum of
  // every window of the bytes fed, once and in order, in batches that overlap by window - 1 bytes.
  lemma {:induction false} BatchesCoverStream(p: RollParams, ops: seq<Op>, n: nat)
    requires p.Valid() && |Fed(ops)| < n
    ensures var v := RollRun(p, NOTHING, ops + [Finish] + Nexts(n));
      && v.done && v.stream == Fed(ops)
      && Chained(p, v.stream, v.batches, v.next) && SumsIn(v.batches) == AllSums(p, Fed(ops))
  {
    var closed := ops + [Finish];
    RollFed(p, closed);
    FedSnoc(ops, Finish);
    assert Finish in closed;
    RollAppend(p, NOTHING, closed, Nexts(n));
    RollDrained(p, RollRun(p, NOTHING, closed), n);
    RollFed(p, closed + Nexts(n));
    FedFinished(closed, n);
    RollOkRun(p, NOTHING, closed + Nexts(n));
    RolledSoFar(p, RollRun(p, NOTHING, closed + Nexts(n)));
  }

  // ----- the push side

  class BatchWriter {
    const core: BatchRollerCore
    var pending: seq<Byte>

    // The pieces the core has been fed, and all it has been put through.
    ghost var feeds: seq<seq<Byte>>
    ghost var schedule: seq<Op>

    ghost function Bytes(): seq<Byte>
      reads this, core
    {
      core.stream + pending
    }

    ghost predicate CoreOk()
      reads `feeds, `schedule, core
    {
      && core.Valid() && core.P().Valid() && core.stream == Flatten(feeds) && RollOk(core.P(), core.View())
      && core.View() == RollRun(core.P(), NOTHING, schedule)
    }

    // Before Close the core has been fed whole batches and less than one is held back.
    ghost predicate Valid()
      reads this, core
    {
      && CoreOk() && core.P().Valid()
      && (!core.eof ==> |pending| < core.batchSize && AllOfSize(feeds, core.batchSize))
      && (core.eof ==> pending == [])
    }

    constructor (h: Scheme, window: nat, batchSize: nat)
      requires RollParams(h, window, batchSize).Valid()
      ensures Valid() && fresh(core) && core.P() == RollParams(h, window, batchSize)
      ensures core.View() == NOTHING && core.Current() == NO_BATCH && pending == [] && schedule == []
    {
      hide RollOk, RollRun, Flatten, BatchRollerCore.Valid;
      NothingRolled(RollParams(h, window, batchSize));
      core := new BatchRollerCore(h, window, batchSize);
      pending, feeds, schedule := [], [], [];
    }

    method Reset()
      requires Valid()
      modifies this, core
      ensures Valid() && core.View() == NOTHING && core.Current() == NO_BATCH && pending == [] && schedule == []
    {
      hide RollOk, RollRun, Flatten, BatchRollerCore.Valid;
      NothingRolled(core.P());
      core.Reset();
      pending, feeds, schedule := [], [], [];
    }

    method Supply(bytes: seq<Byte>)
      requires CoreOk() && !core.eof
      modifies core, `feeds, `schedule
      ensures CoreOk() && feeds == old(feeds) + [bytes] && schedule == old(schedule) + [Feed(bytes)]
      ensures core.View() == old(core.View()).(stream := old(core.stream) + bytes)
      ensures core.Current() == old(core.Current())
    {
      hide Chained, RollParams.Valid, RollRun, Flatten;
      RollFeeds(core.P(), schedule, core.View(), bytes);
      FlattenSnoc(feeds, bytes);
      core.Feed(bytes);
      feeds, schedule := feeds + [bytes], schedule + [Feed(bytes)];
    }

    method Write(p: seq<Byte>) returns (r: WriteResult)
      requires Valid()
      modifies this, core
      ensures Valid() && core.View().(stream := old(core.stream)) == old(core.View())
      ensures core.Current() == old(core.Current())
      ensures if old(core.eof) then r == ErrClosed && Bytes() == old(Bytes())
              else r == Written(|p|) && Bytes() == old(Bytes()) + p
      ensures schedule ==
        if old(core.eof) then old(schedule) else old(schedule) + Batches(core.batchSize, old(pending) + p)
      ensures pending == if old(core.eof) then old(pending) else HeldBack(core.batchSize, old(pending) + p)
    {
      hide BatchWriter.CoreOk, Batches, HeldBack;
      if core.eof { return ErrClosed; }
      var batchSize := Max(core.batchSize, 1);
      var rest := p;
      if |pending| > 0 {
        var need := batchSize - |pending|;
        if need > |p| {
          KeptBack(batchSize, schedule, core.stream, pending, p);
          pending := pending + p;
          return Written(|p|);
        }
        BatchCompleted(batchSize, schedule, core.stream, pending, p);
        pending := pending + p[..need];
        Supply(pending);
        pending := [];
        rest := p[need..];
      } else {
        assert pending + p == p;
      }
      SupplyBatches(rest, batchSize);
      return Written(|p|);
    }

    // Whole batches straight from p, the remainder to be held back.
    method SupplyBatches(p: seq<Byte>, batchSize: nat)
      requires CoreOk() && core.P().Valid() && !core.eof
      requires AllOfSize(feeds, core.batchSize) && batchSize == core.batchSize
      modifies this, core
      ensures schedule == old(schedule) + Batches(batchSize, p) && pending == HeldBack(batchSize, p)
      ensures Valid() && Bytes() == old(core.stream) + p
      ensures core.View().(stream := old(core.stream)) == old(core.View()) && core.Current() == old(core.Current())
    {
      hide BatchWriter.CoreOk, Batches, HeldBack;
      var rest := p;
      while |rest| >= batchSize
        invariant schedule + Batches(batchSize, rest) == old(schedule) + Batches(batchSize, p)
        invariant HeldBack(batchSize, rest) == HeldBack(batchSize, p)
        invariant CoreOk() && AllOfSize(feeds, batchSize) && core.stream + rest == old(core.stream) + p
        invariant core.View().(stream := old(core.stream)) == old(core.View()) && core.Current() == old(core.Current())
      {
        BatchTaken(batchSize, schedule, rest);
        Supply(rest[..batchSize]);
        rest := rest[batchSize..];
      }
      NoBatch(batchSize, rest);
      pending := rest;
    }

    method Close()
      requires Valid()
      modifies this, core
      ensures Valid() && Bytes() == old(Bytes())
      ensures core.View() == old(core.View()).(stream := core.stream, eof := true)
      ensures core.Current() == old(core.Current())
      ensures schedule == old(schedule) + Flushed(old(pending)) + [Finish] && pending == []
    {
      hide Chained, RollRun, RollParams.Valid, Flatten;
      if |pending| > 0 {
        Supply(pending);
        pending := [];
      }
      RollFinished(core.P(), schedule, core.View());
      core.Finish();
      schedule := schedule + [Finish];
    }

    // The next batch; false when there is none yet, because too few bytes are there for a window, or, after Close, none
    // left.
    method Next() returns (ok: bool)
      requires Valid()
      modifies core, `schedule
      ensures Valid() && Bytes() == old(Bytes()) && core.eof == old(core.eof) && schedule == old(schedule) + [Op.Next]
      ensures ok <==> !old(core.done) && old(core.rolled) + core.window <= |core.stream|
      ensures if ok then core.batches == old(core.batches) + [core.Current()] && old(core.rolled) < core.rolled
              else core.batches == old(core.batches) && core.rolled == old(core.rolled)
      ensures core.View() == RollNext(core.P(), old(core.View())).1 && (ok ==> core.rolled <= |core.stream|)
      ensures !ok ==> if core.eof then core.done && core.Current() == NO_BATCH
                      else core.data == old(core.data) && core.sums == old(core.sums) && core.offset == core.rolled
      ensures !ok && !core.eof ==> |Bytes()| < core.rolled + core.window + core.batchSize
      ensures SumsIn(core.batches) <= AllSums(core.P(), core.stream)
      ensures core.eof && !ok ==> SumsIn(core.batches) == AllSums(core.P(), Bytes())
    {
      hide Chained, RollNext, AllSums, SumsIn, Flatten, RollRun, Scheme.Of;
      RollOkStep(core.P(), core.View(), Op.Next);
      RollRunSnoc(core.P(), schedule, Op.Next);
      var r := core.Next();
      RolledSoFar(core.P(), core.View());
      assert core.eof ==> Bytes() == core.stream;
      schedule := schedule + [Op.Next];
      ok := r == Emitted;
    }
  }

  // ----- whole runs

  // One operation on the batching core; the batch it hands out, if any.
  method Perform(c: BatchRollerCore, op: Op) returns (out: seq<Batch>)
    requires c.Valid() && (c.done ==> c.eof)
    modifies c
    ensures c.Valid() && c.View() == RollStep(c.P(), old(c.View()), op) && c.batches == old(c.batches) + out
  {
    out := [];
    match op
    case Feed(bytes) => if !c.eof { c.Feed(bytes); }
    case Finish => c.Finish();
    case Next =>
      var r := c.Next();
      if r == Emitted { out := [Batch(c.offset, c.data, c.sums)]; }
  }

  // The batches of all bytes fed, whatever the pieces and the calls of next in between.
  method RollAll(h: Scheme, window: nat, batchSize: nat, ops: seq<Op>) returns (batches: seq<Batch>)
    requires RollParams(h, window, batchSize).Valid()
    ensures var p := RollParams(h, window, batchSize);
      && batches == RollRun(p, NOTHING, Ended(ops)).batches
      && SumsIn(batches) == AllSums(p, Fed(ops))
      && exists next :: Chained(p, Fed(ops), batches, next)
  {
    hide RollNext, RollRun, Fed, AllSums, Chained, BatchRollerCore.Valid, RollParams.Valid, Nexts, Ended;
    ghost var p := RollParams(h, window, batchSize);
    var c := new BatchRollerCore(h, window, batchSize);
    batches := [];
    NothingRolled(p);
    assert ops[..0] == [];
    for i := 0 to |ops|
      invariant c.Valid() && c.P() == p && batches == c.batches
      invariant c.View() == RollRun(p, NOTHING, ops[..i]) && RollOk(p, c.View())
    {
      assert ops[..i + 1] == ops[..i] + [ops[i]];
      RollRunSnoc(p, ops[..i], ops[i]);
      RollOkStep(p, c.View(), ops[i]);
      var out := Perform(c, ops[i]);
      batches := batches + out;
    }
    assert ops[..|ops|] == ops;
    RollFed(p, ops);
    RollFinished(p, ops, c.View());
    c.Finish();
    ghost var n := 0;
    NextsNone(ops + [Finish]);
    while !c.done
      invariant c.Valid() && c.P() == p && batches == c.batches
      invariant c.eof && c.stream == Fed(ops) && RollOk(p, c.View())
      invariant c.View() == RollRun(p, NOTHING, ops + [Finish] + Nexts(n))
      invariant n <= c.rolled + (if c.done then 1 else 0) && n <= |Fed(ops)| + (if c.done then 1 else 0)
      decreases |c.stream| - c.rolled, if c.done then 0 else 1
    {
      RollOkStep(p, c.View(), Next);
      RollProgresses(p, c.View());
      RollRunSnoc(p, ops + [Finish] + Nexts(n), Next);
      NextsSnoc(ops + [Finish], n);
      var out := Perform(c, Next);
      batches := batches + out;
      n := n + 1;
    }
    RollEnds(p, ops, n);
    RolledSoFar(p, c.View());
    assert Chained(p, Fed(ops), batches, c.rolled);
  }
}
