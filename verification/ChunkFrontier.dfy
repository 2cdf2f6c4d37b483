/**
 The chunking core without buffer and queue: what a call hashes and what it can see depend only on the stream, the
 start of the chunk, the frontier and whether the last chunk ended at the last boundary recorded.
 */
module ChunkFrontier {
  import opened Words
  import opened ChunkSpec

  // There is a hit among the bytes [lo, hi).
  ghost predicate HitIn(p: Params, s: seq<Byte>, lo: int, hi: int) {
    exists e :: lo <= e < hi && Hit(p, s, e)
  }

  // Where hashing on from h ends: behind a batch that holds a hit, behind the longest chunk, or where no further
  // window can be formed.
  ghost function HashOn(p: Params, s: seq<Byte>, start: nat, h: nat): (r: nat)
    requires p.batchSize >= 1
    ensures h <= r
    decreases |s| - h
  {
    var skipped := Max(h, start + p.min - 1);
    var end := Min(skipped + p.batchSize, |s|);
    if PastMax(p, start, h) then h
    else if |s| <= skipped || end < p.window then skipped
    else if HitIn(p, s, skipped, end) then end
    else HashOn(p, s, start, end)
  }

  // What there is to the state of a core.
  datatype State = State(view: View, hashedTo: nat, cutHere: bool)

  // The last boundary recorded is far enough along, used or not: hashing stops before it starts.
  ghost predicate Stops(p: Params, st: State) {
    st.cutHere || HitIn(p, st.view.stream, Max(st.view.start, st.view.start + p.min - 1), st.hashedTo)
  }

  ghost function FrontierAfter(p: Params, st: State): (r: nat)
    requires p.batchSize >= 1
    ensures st.hashedTo <= r
  {
    if Stops(p, st) then st.hashedTo else HashOn(p, st.view.stream, st.view.start, st.hashedTo)
  }

  // The call made in a state: a used-up boundary, or a batch too small to reach a first full window, hides every hit
  // ahead; with no minimum an unhashed byte before the chunk is in play.
  ghost function CallAt(p: Params, st: State): (c: Call)
    ensures c.before == st.view && c.from <= c.before.start <= c.from + 1
  {
    var v, h := st.view, st.hashedTo;
    var stale := st.cutHere && !HitIn(p, v.stream, v.start, h);
    var blocked := Max(h, v.start + p.min - 1) + p.batchSize < p.window;
    Call(v, if p.min == 0 && h < v.start then v.start - 1 else v.start, if stale || blocked then h else |v.stream|)
  }

  ghost function NextState(p: Params, st: State): State
    requires p.batchSize >= 1 && st.view.start <= |st.view.stream|
  {
    var c := CallAt(p, st);
    var (r, v) := Advance(p, c.before, c.from, c.horizon);
    if st.view.done then st
    else
      State(v, FrontierAfter(p, st),
            if r == Emitted && v.emitted != [] then p.min == 0 && v.emitted[|v.emitted| - 1].contentDefined
            else st.cutHere)
  }

  lemma {:induction false} NextMeans(p: Params, st: State, r: CoreState, st': State)
    requires p.batchSize >= 1 && st.view.start <= |st.view.stream|
    requires var c := CallAt(p, st); (r, st'.view) == Advance(p, c.before, c.from, c.horizon)
    requires st'.hashedTo == if st.view.done then st.hashedTo else FrontierAfter(p, st)
    requires r == Emitted ==> st'.view.emitted != []
    requires st'.cutHere == if r == Emitted
      then p.min == 0 && st'.view.emitted[|st'.view.emitted| - 1].contentDefined else st.cutHere
    ensures st' == NextState(p, st)
  {
  }

  // More bytes: the frontier skips what is too close to the chunk, and used boundaries are dropped.
  ghost function FedState(p: Params, st: State, bytes: seq<Byte>): State {
    State(st.view.(stream := st.view.stream + bytes), Max(st.hashedTo, st.view.start + p.min - 1), false)
  }

  const START: State := State(View([], 0, false, false, []), 0, false)
}
