/** The push side: writes coalesced into batches in front of the chunking core. */
module ChunkWriting {
  import opened Words
  import opened Hashing
  import opened ChunkSpec
  import opened BoundaryQueue
  import opened Chunking
  import opened ChunkLaws
  import opened ChunkDrain
  import opened ChunkHistory
  import opened ChunkSchedules
  import opened ChunkRuns
  import opened ChunkFeeds

  datatype WriteResult = Written(n: nat) | ErrClosed

  ghost predicate AllOfSize(fs: seq<seq<Byte>>, n: nat) {
    forall i :: 0 <= i < |fs| ==> |fs[i]| == n
  }

  lemma {:induction false} FlattenSize(fs: seq<seq<Byte>>, n: nat)
    requires AllOfSize(fs, n) && fs != []
    ensures |Flatten(fs)| >= n
  {
  }

  // ----- what a schedule of writes becomes for the core

  // The whole batches of s, and what is left of it.
  function Batches(n: nat, s: seq<Byte>): seq<Op>
    requires n >= 1
  {
    if |s| < n then [] else [Feed(s[..n])] + Batches(n, s[n..])
  }

  function HeldBack(n: nat, s: seq<Byte>): seq<Byte>
    requires n >= 1
  {
    if |s| < n then s else HeldBack(n, s[n..])
  }

  function Flushed(held: seq<Byte>): seq<Op> {
    if held == [] then [] else [Feed(held)]
  }

  // What the core is put through, and what is still held back.
  function Pushed(n: nat, ops: seq<Op>): (seq<Op>, seq<Byte>)
    requires n >= 1
  {
    if ops == [] then ([], [])
    else
      var init := ops[..|ops| - 1];
      var (sofar, held) := Pushed(n, init);
      match ops[|ops| - 1]
      case Next => (sofar + [Next], held)
      case Finish => (sofar + Flushed(held) + [Finish], [])
      case Feed(bytes) =>
        if Finish in init then (sofar, held) else (sofar + Batches(n, held + bytes), HeldBack(n, held + bytes))
  }

  // And once the writer is closed.
  function PushedAll(n: nat, ops: seq<Op>): seq<Op>
    requires n >= 1
  {
    var (sofar, held) := Pushed(n, ops);
    sofar + Flushed(held)
  }

  lemma {:induction false} PushedNone(n: nat, ops: seq<Op>)
    requires n >= 1
    ensures Pushed(n, ops[..0]) == ([], [])
  {
  }

  lemma {:induction false} PushedSnoc(n: nat, ops: seq<Op>, i: nat)
    requires n >= 1 && i < |ops|
    ensures var (sofar, held) := Pushed(n, ops[..i]);
      Pushed(n, ops[..i + 1]) == match ops[i]
        case Next => (sofar + [Next], held)
        case Finish => (sofar + Flushed(held) + [Finish], [])
        case Feed(bytes) =>
          if Finish in ops[..i] then (sofar, held) else (sofar + Batches(n, held + bytes), HeldBack(n, held + bytes))
  {
    assert ops[..i + 1][..i] == ops[..i];
  }

  // The batches are of n bytes each, less than n bytes are held back, and together they are s.
  lemma {:induction false} BatchesExactly(n: nat, s: seq<Byte>)
    requires n >= 1
    ensures forall i :: 0 <= i < |Batches(n, s)| ==> Batches(n, s)[i].Feed? && |Batches(n, s)[i].bytes| == n
    ensures |HeldBack(n, s)| < n && Fed(Batches(n, s)) + HeldBack(n, s) == s
    decreases |s|
  {
    if |s| >= n {
      BatchesExactly(n, s[n..]);
      assert Batches(n, s)[1..] == Batches(n, s[n..]);
      assert s == s[..n] + s[n..];
    }
  }

  // What the core has been put through has fed it all that was written and is not held back.
  lemma {:induction false} PushedExactly(n: nat, ops: seq<Op>)
    requires n >= 1
    ensures var (sofar, held) := Pushed(n, ops);
      && |held| < n && (Finish in sofar <==> Finish in ops) && (Finish in ops ==> held == [])
      && Fed(sofar) + held == Fed(ops)
    decreases |ops|
  {
    hide Batches, HeldBack, Fed;
    if ops == [] {
      FedNothing([]);
    } else {
      var init, op := ops[..|ops| - 1], ops[|ops| - 1];
      var (sofar, held) := Pushed(n, init);
      assert ops == init + [op];
      PushedExactly(n, init);
      FedSnoc(init, op);
      match op
      case Next => FedSnoc(sofar, Next);
      case Finish =>
        if held != [] { FedSnoc(sofar, Feed(held)); } else { assert sofar + Flushed(held) == sofar; }
        FedSnoc(sofar + Flushed(held), Finish);
      case Feed(bytes) =>
        if Finish !in init {
          BatchesExactly(n, held + bytes);
          FedAppend(sofar, Batches(n, held + bytes));
          assert Fed(sofar) + (held + bytes) == (Fed(sofar) + held) + bytes;
        }
    }
  }

  lemma {:induction false} FedAppend(xs: seq<Op>, ys: seq<Op>)
    requires Finish !in xs
    ensures Fed(xs + ys) == Fed(xs) + Fed(ys)
    decreases |xs|
  {
    if xs == [] {
      assert xs + ys == ys;
    } else {
      assert (xs + ys)[1..] == xs[1..] + ys;
      FedAppend(xs[1..], ys);
    }
  }

  lemma {:induction false} NoBatch(n: nat, s: seq<Byte>)
    requires n >= 1 && |s| < n
    ensures Batches(n, s) == [] && HeldBack(n, s) == s
  {
  }

  lemma {:induction false} BatchTaken(n: nat, sofar: seq<Op>, s: seq<Byte>)
    requires 1 <= n <= |s|
    ensures (sofar + [Feed(s[..n])]) + Batches(n, s[n..]) == sofar + Batches(n, s)
    ensures HeldBack(n, s[n..]) == HeldBack(n, s)
  {
  }

  // A first batch completed, after what the core has been put through and fed.
  lemma {:induction false} BatchCompleted(n: nat, sofar: seq<Op>, fed: seq<Byte>, held: seq<Byte>, s: seq<Byte>)
    requires n >= 1 && |held| <= n <= |held| + |s|
    ensures var first, rest := held + s[..n - |held|], s[n - |held|..];
      && (sofar + [Feed(first)]) + Batches(n, rest) == sofar + Batches(n, held + s)
      && HeldBack(n, rest) == HeldBack(n, held + s) && |first| == n
      && (fed + first) + rest == (fed + held) + s
  {
    assert (held + s)[..n] == held + s[..n - |held|] && (held + s)[n..] == s[n - |held|..];
    BatchTaken(n, sofar, held + s);
  }

  // No batch completed.
  lemma {:induction false} KeptBack(n: nat, sofar: seq<Op>, fed: seq<Byte>, held: seq<Byte>, s: seq<Byte>)
    requires n >= 1 && |held + s| < n
    ensures sofar + Batches(n, held + s) == sofar && HeldBack(n, held + s) == held + s
    ensures fed + (held + s) == (fed + held) + s
  {
    NoBatch(n, held + s);
  }

  class ChunkWriter {
    const core: ChunkerCore
    var pending: seq<Byte>

    // The pieces the core has been fed, and whether each came when the core had answered all it could.
    ghost var feeds: seq<seq<Byte>>
    ghost var prompt: bool

    // What the core has been put through.
    ghost var schedule: seq<Op>

    ghost function Bytes(): seq<Byte>
      reads this, core
    {
      core.stream + pending
    }

    // The core, all that has been written fed.
    ghost function Whole(): View
      reads this, core
    {
      core.View().(stream := Bytes())
    }

    // A configuration that is sound on its own, or batches that hold a window, each fed once Next had said no.
    ghost predicate Faithful()
      reads `prompt
    {
      core.P().Sound() || (core.window <= core.batchSize && prompt)
    }

    // Nothing has gone wrong so far.
    ghost predicate Right()
      reads core
    {
      NoneSpoils(core.P(), core.calls)
    }

    ghost predicate CoreOk()
      reads `feeds, `prompt, `schedule, core
    {
      && core.Valid() && core.chunkStart <= core.consumed == |core.stream|
      && (core.done ==> core.eof) && core.stream == Flatten(feeds)
      && History(core.P(), core.calls, core.View()) && (Faithful() ==> Right())
      && (core.window <= core.batchSize && prompt ==> core.Synced()) && Scheduled(core, schedule)
    }

    // Before Close the core has been fed whole batches and less than one is held back.
    ghost predicate Valid()
      reads this, core
    {
      && CoreOk() && 1 <= core.batchSize && core.P().Fits(|Bytes()|)
      && (!core.eof ==> |pending| < core.batchSize && AllOfSize(feeds, core.batchSize))
      && (core.eof ==> pending == [])
    }

    // Nothing of the core but its stream has changed.
    ghost predicate OnlyFed(v: View, current: Chunk, calls: seq<Call>)
      reads core
    {
      core.View().(stream := v.stream) == v && core.Current() == current && core.calls == calls
    }

    constructor (h: Scheme, window: nat, mask: Word, min: nat, max: nat, batchSize: nat)
      requires var p := Params(h, window, mask, min, max, batchSize); p.Valid() && p.Fits(0)
      ensures Valid() && fresh(core) && fresh(core.Repr())
      ensures core.P() == Params(h, window, mask, min, max, batchSize) && core.View() == EMPTY && Bytes() == []
      ensures prompt && core.UpToDate() && core.calls == [] && schedule == [] && pending == []
      ensures core.Current() == Chunk(0, [], false, 0)
    {
      hide QueueOk, History, NoneSpoils, ChunkerCore.Valid;
      var c := new ChunkerCore(h, window, mask, min, max, batchSize);
      core := c;
      pending, feeds, prompt, schedule := [], [], true, [];
      new;
      HistoryEmpty(c.P());
    }

    method Reset()
      requires Valid()
      modifies this, core
      ensures Valid() && core.Repr() == old(core.Repr()) && core.View() == EMPTY && Bytes() == []
      ensures prompt && core.UpToDate() && core.calls == [] && schedule == [] && pending == []
      ensures core.Current() == Chunk(0, [], false, 0)
    {
      hide QueueOk, History, NoneSpoils, ChunkerCore.Valid, Params.Valid;
      core.Reset();
      pending, feeds, prompt, schedule := [], [], true, [];
      HistoryEmpty(core.P());
    }

    // One piece to the core.
    method Supply(bytes: seq<Byte>)
      requires CoreOk() && !core.eof && core.P().Fits(|core.stream| + |bytes|)
      requires AllOfSize(feeds, core.batchSize) && |bytes| <= core.batchSize
      modifies core, `feeds, `prompt, `schedule
      ensures CoreOk() && core.Repr() == old(core.Repr())
      ensures core.stream == old(core.stream) + bytes && feeds == old(feeds) + [bytes]
      ensures OnlyFed(old(core.View()), old(core.Current()), old(core.calls))
      ensures prompt == old(prompt && core.UpToDate()) && schedule == old(schedule) + [Feed(bytes)]
    {
      hide QueueOk, History, NoneSpoils, ChunkerCore.Valid, Params.Sound, Params.Fits, Params.Valid, Scheduled;
      if feeds != [] { FlattenSize(feeds, core.batchSize); }
      FlattenSnoc(feeds, bytes);
      prompt := prompt && core.UpToDate();
      FeedNext(core, schedule, bytes, false);
      schedule := schedule + [Feed(bytes)];
      feeds := feeds + [bytes];
    }

    // A write that completes no batch leaves the core alone; one that completes one stays prompt if the core had
    // answered all it could.
    method Write(p: seq<Byte>) returns (r: WriteResult)
      requires Valid() && (!core.eof ==> core.P().Fits(|Bytes()| + |p|))
      modifies this, core
      ensures Valid() && core.Repr() == old(core.Repr())
      ensures OnlyFed(old(core.View()), old(core.Current()), old(core.calls))
      ensures if old(core.eof) then r == ErrClosed && Bytes() == old(Bytes())
              else r == Written(|p|) && Bytes() == old(Bytes()) + p
      ensures old(prompt && core.UpToDate() && |pending| + |p| < 2 * core.batchSize) ==> prompt
      ensures schedule ==
        if old(core.eof) then old(schedule) else old(schedule) + Batches(core.batchSize, old(pending) + p)
      ensures pending == if old(core.eof) then old(pending) else HeldBack(core.batchSize, old(pending) + p)
    {
      hide ChunkerCore.UpToDate, ChunkWriter.CoreOk, Batches, HeldBack;
      if core.eof { return ErrClosed; }
      var batchSize := Max(core.batchSize, 1);
      var rest := p;
      if |pending| > 0 {
        var need := batchSize - |pending|;
        if need > |p| {
          KeptBack(batchSize, schedule, core.stream, pending, p);
          pending := pending + p;
          return Written(|p|);
        }
        BatchCompleted(batchSize, schedule, core.stream, pending, p);
        pending := pending + p[..need];
        Supply(pending);
        pending := [];
        rest := p[need..];
      } else {
        assert pending + p == p;
      }
      SupplyBatches(rest, batchSize);
      return Written(|p|);
    }

    // Whole batches straight from p, the remainder to be held back.
    method SupplyBatches(p: seq<Byte>, batchSize: nat)
      requires CoreOk() && !core.eof && AllOfSize(feeds, core.batchSize) && batchSize == core.batchSize
      requires 1 <= batchSize && core.P().Fits(|core.stream| + |p|)
      modifies this, core
      ensures Valid() && core.Repr() == old(core.Repr())
      ensures OnlyFed(old(core.View()), old(core.Current()), old(core.calls)) && Bytes() == old(core.stream) + p
      ensures schedule == old(schedule) + Batches(batchSize, p) && pending == HeldBack(batchSize, p)
      ensures |p| < batchSize ==> prompt == old(prompt)
      ensures |p| < 2 * batchSize && old(prompt && core.UpToDate()) ==> prompt
    {
      hide History, NoneSpoils, ChunkerCore.Valid, ChunkerCore.UpToDate, ChunkerCore.Synced, Params.Sound;
      hide Scheduled, Batches, HeldBack, Flatten, ChunkWriter.CoreOk;
      var rest := p;
      while |rest| >= batchSize
        invariant CoreOk() && core.Repr() == old(core.Repr()) && AllOfSize(feeds, batchSize)
        invariant OnlyFed(old(core.View()), old(core.Current()), old(core.calls))
        invariant core.stream + rest == old(core.stream) + p
        invariant schedule + Batches(batchSize, rest) == old(schedule) + Batches(batchSize, p)
        invariant HeldBack(batchSize, rest) == HeldBack(batchSize, p)
        invariant |rest| == |p| ==> prompt == old(prompt) && core.UpToDate() == old(core.UpToDate())
        invariant |rest| == |p| - batchSize ==> prompt == old(prompt && core.UpToDate())
        invariant |rest| == |p| || |rest| == |p| - batchSize || |rest| + 2 * batchSize <= |p|
      {
        BatchTaken(batchSize, schedule, rest);
        Supply(rest[..batchSize]);
        rest := rest[batchSize..];
      }
      NoBatch(batchSize, rest);
      pending := rest;
    }

    method Close()
      requires Valid()
      modifies this, core
      ensures Valid() && core.Repr() == old(core.Repr()) && core.eof && Bytes() == old(Bytes())
      ensures core.View() == old(core.View()).(stream := core.stream, eof := true)
      ensures core.Current() == old(core.Current()) && core.calls == old(core.calls)
      ensures old(prompt && core.UpToDate()) ==> prompt
      ensures schedule == old(schedule) + Flushed(old(pending)) + [Finish] && pending == []
    {
      hide History, NoneSpoils, ChunkerCore.Valid, ChunkerCore.UpToDate, ChunkerCore.Synced, Params.Sound;
      hide Scheduled;
      if |pending| > 0 {
        Supply(pending);
        pending := [];
      }
      FinishNext(core, schedule);
      schedule := schedule + [Finish];
    }

    // The next chunk; false when there is none yet or, after Close, none left. The chunks are those of the naive
    // chunker, for every continuation of what has been written, if and only if no call spoiled them. Without a forced
    // cut, as by default, none does before Close.
    method Next() returns (ok: bool)
      requires Valid()
      modifies core.Repr(), `schedule
      ensures Valid() && schedule == old(schedule) + [Op.Next]
      ensures fresh(core.Repr() - old(core.Repr())) && Bytes() == old(Bytes()) && core.eof == old(core.eof)
      ensures if ok then core.emitted == old(core.emitted) + [core.Current()] && core.Left() < old(core.Left())
              else core.emitted == old(core.emitted) && core.Left() <= old(core.Left())
      ensures OnCourse(core.P(), Whole()) <==> Right()
      ensures core.eof && !ok ==> core.done && (core.emitted == Naive(core.P(), Bytes(), 0) <==> Right())
      ensures !ok ==> core.Current() == if core.eof then Chunk(0, [], false, 0) else old(core.Current())
      ensures Faithful() || (core.max == MAX_INT && !core.eof) ==> Right()
      ensures Tiled(core.P(), core.View())
      ensures !ok && !core.eof && core.window <= core.batchSize && prompt ==> core.UpToDate()
    {
      hide QueueOk, Scan, Naive, History, NoneSpoils, Conclude, OnCourse, Tiled, Params.Sound, Scheduled;
      var r := CallNext(core, schedule);
      schedule := schedule + [Op.Next];
      HistoryFollows(core.P(), core.calls, core.View(), Whole());
      OnCourseExactly(core.P(), core.calls, Whole());
      if core.max == MAX_INT && !core.eof { UnboundedOnCourse(core.P(), core.calls, core.View()); }
      HistoryTiles(core.P(), core.calls, core.View());
      ok := r == Emitted;
    }
  }

  // One operation on the writer: a write, a call of Next or Close; the chunk it hands out, if any.
  method Push(w: ChunkWriter, op: Op) returns (out: seq<Chunk>)
    requires w.Valid() && (op.Feed? && !w.core.eof ==> w.core.P().Fits(|w.Bytes()| + |op.bytes|))
    modifies w, w.core.Repr()
    ensures w.Valid() && fresh(w.core.Repr() - old(w.core.Repr())) && w.core.emitted == old(w.core.emitted) + out
    ensures w.Bytes() == if op.Feed? && !old(w.core.eof) then old(w.Bytes()) + op.bytes else old(w.Bytes())
    ensures w.core.eof == (old(w.core.eof) || op.Finish?)
    ensures (w.schedule, w.pending) == old(match op
      case Next => (w.schedule + [Next], w.pending)
      case Finish => (w.schedule + Flushed(w.pending) + [Finish], [])
      case Feed(bytes) =>
        if w.core.eof then (w.schedule, w.pending)
        else (w.schedule + Batches(w.core.batchSize, w.pending + bytes),
              HeldBack(w.core.batchSize, w.pending + bytes)))
  {
    hide Batches, HeldBack, ChunkWriter.Valid, Naive, OnCourse, NoneSpoils, Params.Sound, Params.Fits;
    out := [];
    match op
    case Feed(bytes) =>
      var written := w.Write(bytes);
    case Finish =>
      w.Close();
    case Next =>
      var ok := w.Next();
      if ok { out := [Chunk(w.core.offset, w.core.chunk, w.core.contentDefined, w.core.sumv)]; }
  }

  // Calls Next until it says no.
  method Collect(w: ChunkWriter) returns (chunks: seq<Chunk>, ghost n: nat)
    requires w.Valid()
    modifies w.core.Repr(), w`schedule
    ensures w.Valid() && fresh(w.core.Repr() - old(w.core.Repr()))
    ensures w.schedule == old(w.schedule) + Nexts(n) && n <= 2 * |w.core.stream| + 2
    ensures w.Bytes() == old(w.Bytes()) && w.core.eof == old(w.core.eof)
    ensures w.core.emitted == old(w.core.emitted) + chunks
    ensures w.core.eof ==> w.core.done && (w.core.emitted == Naive(w.core.P(), w.Bytes(), 0) <==> w.Right())
    ensures !w.core.eof && w.core.window <= w.core.batchSize && w.prompt ==> w.core.UpToDate()
  {
    hide ChunkWriter.Faithful, Naive, OnCourse, NoneSpoils, History, ChunkerCore.Ready, Scheduled, Nexts, Tiled;
    hide ChunkerCore.UpToDate, ChunkerCore.Synced;
    chunks, n := [], 0;
    NextsNone(w.schedule);
    var ok := true;
    while ok
      invariant w.Valid() && fresh(w.core.Repr() - old(w.core.Repr()))
      invariant w.schedule == old(w.schedule) + Nexts(n)
      invariant n + w.core.Left() + (if ok then 1 else 0) <= old(w.core.Left()) + 1
      invariant w.Bytes() == old(w.Bytes()) && w.core.eof == old(w.core.eof)
      invariant w.core.emitted == old(w.core.emitted) + chunks
      invariant !ok && w.core.eof ==> w.core.done && (w.core.emitted == Naive(w.core.P(), w.Bytes(), 0) <==> w.Right())
      invariant !ok && !w.core.eof && w.core.window <= w.core.batchSize && w.prompt ==> w.core.UpToDate()
      decreases w.core.Left(), if ok then 1 else 0
    {
      NextsSnoc(old(w.schedule), n);
      ok := w.Next();
      n := n + 1;
      if ok { chunks := chunks + [Chunk(w.core.offset, w.core.chunk, w.core.contentDefined, w.core.sumv)]; }
    }
  }

  // Every chunk of what is written before the first Close, however writes and calls of Next are interleaved, in
  // every configuration: the chunks the core's schedule accounts for. They are the naive chunks if and only if no call
  // spoiled them, and in a sound configuration none does.
  method PushAll(p: Params, ops: seq<Op>) returns (chunks: seq<Chunk>)
    requires p.Valid() && p.Fits(|Fed(ops)|)
    ensures var sched := Ended(PushedAll(p.batchSize, ops));
      && StateAfter(p, sched).view == View(Fed(ops), |Fed(ops)|, true, true, chunks)
      && History(p, CallsAfter(p, sched), StateAfter(p, sched).view)
      && (chunks == Naive(p, Fed(ops), 0) <==> NoneSpoils(p, CallsAfter(p, sched)))
    ensures p.Sound() ==> chunks == Naive(p, Fed(ops), 0)
    ensures Joined(chunks) == Fed(ops) && TilesTo(p, chunks, |Fed(ops)|, true)
    ensures p.min >= 1 || p.max == MAX_INT ==> AllFull(chunks)
  {
    hide Naive, Fed, OnCourse, NoneSpoils, History, QueueOk, Params.Sound, ChunkerCore.Valid;
    hide StateAfter, CallsAfter, Scheduled, Ended, Pushed;
    var w := new ChunkWriter(p.scheme, p.window, p.mask, p.min, p.max, p.batchSize);
    chunks := [];
    FedNothing(ops);
    PushedNone(p.batchSize, ops);
    for i := 0 to |ops|
      invariant w.Valid() && fresh(w) && fresh(w.core) && fresh(w.core.Repr()) && w.core.P() == p
      invariant chunks == w.core.emitted && w.Bytes() == Fed(ops[..i]) && (w.core.eof <==> Finish in ops[..i])
      invariant (w.schedule, w.pending) == Pushed(p.batchSize, ops[..i])
    {
      FedStep(ops, i);
      FedPrefix(ops, i + 1);
      PushedSnoc(p.batchSize, ops, i);
      var out := Push(w, ops[i]);
      chunks := chunks + out;
    }
    assert ops[..|ops|] == ops;
    w.Close();
    var last, n := Collect(w);
    chunks := chunks + last;
    PushedEnds(w, ops, n);
    HistoryTiles(p, w.core.calls, w.core.View());
    assert Fed(ops)[..|Fed(ops)|] == Fed(ops);
  }

  // A writer closed and drained has put its core through the schedule of its writes run to the end.
  lemma {:induction false} PushedEnds(w: ChunkWriter, ops: seq<Op>, n: nat)
    requires w.Valid() && w.core.done && n <= 2 * |w.core.stream| + 2
    requires w.schedule == PushedAll(w.core.batchSize, ops) + [Finish] + Nexts(n)
    ensures var p, sched := w.core.P(), Ended(PushedAll(w.core.batchSize, ops));
      && StateAfter(p, sched).view == w.core.View() && History(p, CallsAfter(p, sched), w.core.View())
      && (NoneSpoils(p, CallsAfter(p, sched)) <==> w.Right())
  {
    hide History, NoneSpoils, Fed, PushedAll, StateAfter, CallsAfter, Nexts, ChunkerCore.Ready;
    var sched := PushedAll(w.core.batchSize, ops);
    ScheduledMeans(w.core, w.schedule);
    FedFinished(sched + [Finish], n);
    FedSnoc(sched, Finish);
    EndsThere(w.core, sched, n);
  }

  // One turn of the documented loop: a write, and the chunks it completed.
  method WriteAndTake(w: ChunkWriter, bytes: seq<Byte>) returns (chunks: seq<Chunk>)
    requires w.Valid() && !w.core.eof && w.core.P().Fits(|w.Bytes()| + |bytes|)
    modifies w, w.core.Repr()
    ensures w.Valid() && fresh(w.core.Repr() - old(w.core.Repr())) && !w.core.eof
    ensures w.Bytes() == old(w.Bytes()) + bytes && w.core.emitted == old(w.core.emitted) + chunks
    ensures w.core.window <= w.core.batchSize && |bytes| <= w.core.batchSize && old(w.prompt && w.core.UpToDate())
      ==> w.prompt && w.core.UpToDate()
  {
    hide ChunkWriter.CoreOk, Naive, NoneSpoils, Batches, HeldBack, Nexts, ChunkerCore.UpToDate;
    var written := w.Write(bytes);
    ghost var n;
    chunks, n := Collect(w);
  }

  // The documented loop: after every write the chunks it completed are taken, and after Close the last ones. With a
  // batch that holds a window it is right for every minimum as long as no write exceeds a batch.
  method WriteAndDrain(p: Params, writes: seq<seq<Byte>>) returns (chunks: seq<Chunk>, ghost ops: seq<Op>)
    requires p.Valid() && p.Fits(|Flatten(writes)|)
    ensures StateAfter(p, ops).view == View(Flatten(writes), |Flatten(writes)|, true, true, chunks)
    ensures History(p, CallsAfter(p, ops), StateAfter(p, ops).view)
    ensures chunks == Naive(p, Flatten(writes), 0) <==> NoneSpoils(p, CallsAfter(p, ops))
    ensures p.Sound() || (p.window <= p.batchSize && forall i :: 0 <= i < |writes| ==> |writes[i]| <= p.batchSize)
      ==> chunks == Naive(p, Flatten(writes), 0)
    ensures Joined(chunks) == Flatten(writes)
  {
    hide Naive, Flatten, OnCourse, NoneSpoils, History, QueueOk, Params.Sound, Batches, HeldBack, Nexts;
    hide ChunkerCore.Valid, ChunkerCore.UpToDate, StateAfter, CallsAfter, Scheduled, ChunkWriter.CoreOk;
    ghost var small := p.window <= p.batchSize && forall i :: 0 <= i < |writes| ==> |writes[i]| <= p.batchSize;
    var w := new ChunkWriter(p.scheme, p.window, p.mask, p.min, p.max, p.batchSize);
    chunks := [];
    FlattenNone(writes);
    for i := 0 to |writes|
      invariant w.Valid() && fresh(w) && fresh(w.core) && fresh(w.core.Repr()) && w.core.P() == p
      invariant w.Bytes() == Flatten(writes[..i]) && !w.core.eof && chunks == w.core.emitted
      invariant small ==> w.prompt && w.core.UpToDate()
    {
      assert writes[..i + 1] == writes[..i] + [writes[i]];
      FlattenSnoc(writes[..i], writes[i]);
      FlattenPrefix(writes, i + 1);
      var out := WriteAndTake(w, writes[i]);
      chunks := chunks + out;
    }
    assert writes[..|writes|] == writes;
    w.Close();
    var last, none := Collect(w);
    chunks := chunks + last;
    ops := w.schedule;
    WriterDone(w);
  }

  // All a writer has handed out once it is drained.
  lemma {:induction false} WriterDone(w: ChunkWriter)
    requires w.Valid() && w.core.done
    ensures var p, v := w.core.P(), StateAfter(w.core.P(), w.schedule).view;
      && v == View(w.Bytes(), |w.Bytes()|, true, true, w.core.emitted) && Joined(w.core.emitted) == w.Bytes()
      && History(p, CallsAfter(p, w.schedule), v) && (NoneSpoils(p, CallsAfter(p, w.schedule)) <==> w.Right())
    ensures w.Faithful() ==> w.Right()
  {
    hide History, NoneSpoils, QueueOk, StateAfter, CallsAfter;
    HistoryTiles(w.core.P(), w.core.calls, w.core.View());
    WholeStream(w.core.P(), w.core.calls, w.core.View());
  }

  // Once done, the chunks make up the whole stream.
  lemma {:induction false} WholeStream(p: Params, calls: seq<Call>, v: View)
    requires History(p, calls, v) && p.max >= 1 && v.done
    ensures Joined(v.emitted) == v.stream
  {
    HistoryTiles(p, calls, v);
    assert v.stream[..|v.stream|] == v.stream;
  }

  // Pushed in any order of writes and calls of Next, or pulled, the same bytes give the same chunks if and only if no
  // pushed call spoiled them, where the pulled ones are right as they are when a batch holds a window. In every
  // configuration either way hands out all the bytes.
  method BothWays(p: Params, ops: seq<Op>, input: seq<Byte>, eager: bool)
    returns (pushed: seq<Chunk>, pulled: seq<Chunk>)
    requires p.Valid() && p.Fits(|input|) && input == Fed(ops)
    ensures p.Sound() || p.window <= p.batchSize
      ==> (pushed == pulled <==> NoneSpoils(p, CallsAfter(p, Ended(PushedAll(p.batchSize, ops)))))
    ensures p.Sound() ==> pushed == pulled
    ensures Joined(pushed) == Joined(pulled) == input
  {
    hide Naive, Fed, History, NoneSpoils;
    ghost var none;
    pushed := PushAll(p, ops);
    pulled, none := PullAll(p, input, eager);
  }

  // Pushed by the documented loop or pulled, the same bytes give the same chunks, for every minimum.
  method BothLoops(p: Params, writes: seq<seq<Byte>>, input: seq<Byte>, eager: bool)
    returns (pushed: seq<Chunk>, pulled: seq<Chunk>)
    requires p.Valid() && p.Fits(|input|) && input == Flatten(writes)
    ensures p.Sound() || (p.window <= p.batchSize && forall i :: 0 <= i < |writes| ==> |writes[i]| <= p.batchSize)
      ==> pushed == pulled
    ensures Joined(pushed) == Joined(pulled) == input
  {
    hide Naive, Flatten, History, NoneSpoils;
    ghost var ops, none;
    pushed, ops := WriteAndDrain(p, writes);
    pulled, none := PullAll(p, input, eager);
  }
}
