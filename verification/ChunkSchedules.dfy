/** What the chunking core does, state and calls, as functions of its parameters and of the schedule alone. */
module ChunkSchedules {
  import opened ChunkSpec
  import opened ChunkLaws
  import opened ChunkDrain
  import opened ChunkFrontier
  import opened ChunkHistory

  ghost function After(p: Params, st: State, op: Op): (r: State)
    requires p.batchSize >= 1 && st.view.start <= |st.view.stream|
    ensures r.view.start <= |r.view.stream|
  {
    match op
    case Feed(bytes) => if st.view.eof then st else FedState(p, st, bytes)
    case Finish => st.(view := st.view.(eof := true))
    case Next => NextState(p, st)
  }

  ghost function StateAfter(p: Params, ops: seq<Op>): (st: State)
    requires p.batchSize >= 1
    ensures st.view.start <= |st.view.stream|
  {
    if ops == [] then START else After(p, StateAfter(p, ops[..|ops| - 1]), ops[|ops| - 1])
  }

  ghost function CallsAfter(p: Params, ops: seq<Op>): seq<Call>
    requires p.batchSize >= 1
  {
    if ops == [] then []
    else
      var init := ops[..|ops| - 1];
      CallsAfter(p, init) + if ops[|ops| - 1].Next? then [CallAt(p, StateAfter(p, init))] else []
  }

  lemma {:induction false} ScheduleSnoc(p: Params, ops: seq<Op>, op: Op)
    requires p.batchSize >= 1
    ensures StateAfter(p, ops + [op]) == After(p, StateAfter(p, ops), op)
    ensures CallsAfter(p, ops + [op]) ==
      CallsAfter(p, ops) + if op.Next? then [CallAt(p, StateAfter(p, ops))] else []
  {
    assert (ops + [op])[..|ops|] == ops;
  }

  // What a schedule fed is what the core has seen, and finishing shows.
  lemma {:induction false} StateFed(p: Params, ops: seq<Op>)
    requires p.batchSize >= 1
    ensures var v := StateAfter(p, ops).view; v.stream == Fed(ops) && (v.eof <==> Finish in ops)
    decreases |ops|
  {
    hide CallAt, FrontierAfter, Advance;
    if ops != [] {
      var init, op := ops[..|ops| - 1], ops[|ops| - 1];
      assert ops == init + [op];
      StateFed(p, init);
      FedSnoc(init, op);
    }
  }

  // What a schedule leads to is what its calls account for, and it is done.
  ghost predicate Settled(p: Params, ops: seq<Op>) {
    && p.batchSize >= 1 && StateAfter(p, ops).view.done
    && History(p, CallsAfter(p, ops), StateAfter(p, ops).view)
  }

  lemma {:induction false} DonePlaced(p: Params, ops: seq<Op>)
    requires Settled(p, ops) && p.max >= 1
    ensures Placed(p, CallAt(p, StateAfter(p, ops)))
  {
    hide TilesTo, Joined, AllFull, Hit;
    HistoryTiles(p, CallsAfter(p, ops), StateAfter(p, ops).view);
  }

  // One more call of Next changes nothing and spoils nothing.
  lemma {:induction false} SettledSnoc(p: Params, ops: seq<Op>)
    requires Settled(p, ops) && p.max >= 1
    ensures Settled(p, ops + [Next]) && StateAfter(p, ops + [Next]) == StateAfter(p, ops)
    ensures NoneSpoils(p, CallsAfter(p, ops + [Next])) <==> NoneSpoils(p, CallsAfter(p, ops))
  {
    hide Placed, Misled, History, FrontierAfter, CallAt, StateAfter, CallsAfter;
    var calls, c := CallsAfter(p, ops), CallAt(p, StateAfter(p, ops));
    ScheduleSnoc(p, ops, Next);
    DonePlaced(p, ops);
    HistoryCall(p, calls, c);
    assert (calls + [c])[..|calls|] == calls;
    assert forall i :: 0 <= i < |calls| ==> (calls + [c])[i] == calls[i];
  }

  // Nor do any number of them.
  lemma {:induction false} SettledStays(p: Params, ops: seq<Op>, n: nat)
    requires Settled(p, ops) && p.max >= 1
    ensures Settled(p, ops + Nexts(n)) && StateAfter(p, ops + Nexts(n)) == StateAfter(p, ops)
    ensures NoneSpoils(p, CallsAfter(p, ops + Nexts(n))) <==> NoneSpoils(p, CallsAfter(p, ops))
    decreases n
  {
    hide Settled, NoneSpoils, Nexts, StateAfter, CallsAfter;
    if n == 0 {
      NextsNone(ops);
    } else {
      SettledStays(p, ops, n - 1);
      NextsSnoc(ops, n - 1);
      SettledSnoc(p, ops + Nexts(n - 1));
    }
  }
}
