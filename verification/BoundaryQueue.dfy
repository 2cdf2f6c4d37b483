/** The queue of pending boundaries between the hashing frontier and the chunk being cut. */
module BoundaryQueue {
  import opened Words
  import opened ChunkSpec

  ghost predicate Ascending(xs: seq<nat>) {
    forall i, j :: 0 <= i < j < |xs| ==> xs[i] < xs[j]
  }

  // The queue bounds[bcur..] while the chunk at start is being cut: of the hits from byte `from` up to
  // the hashing frontier it misses only those too close to start; what was taken off can never be used.
  ghost predicate QueueOk(p: Params, s: seq<Byte>, bounds: seq<nat>, bcur: nat, start: nat, from: nat, hashedTo: nat) {
    && bcur <= |bounds| && from <= start <= from + 1
    && Ascending(bounds)
    && (forall i :: 0 <= i < |bounds| ==> bounds[i] < hashedTo && Hit(p, s, bounds[i]))
    && (forall i :: 0 <= i < bcur ==> bounds[i] < from || bounds[i] + 1 < start + p.min)
    && (forall i :: bcur <= i < |bounds| ==> from <= bounds[i])
    && (forall e: nat :: from <= e < hashedTo && start + p.min <= e + 1 && Hit(p, s, e) ==> e in bounds[bcur..])
    && (hashedTo <= |s| || hashedTo + 1 <= start + p.min)
  }

  lemma {:induction false} QueueEmpty(p: Params)
    ensures QueueOk(p, [], [], 0, 0, 0, 0)
  {
  }

  lemma {:induction false} HitExtends(p: Params, s: seq<Byte>, t: seq<Byte>, e: int)
    requires e < |s|
    ensures Hit(p, s, e) == Hit(p, s + t, e)
  {
    if p.window <= e + 1 {
      assert (s + t)[e + 1 - p.window..e + 1] == s[e + 1 - p.window..e + 1];
    }
  }

  lemma {:induction false} QueueFed(p: Params, s: seq<Byte>, t: seq<Byte>, bounds: seq<nat>, bcur: nat, start: nat,
                                    hashedTo: nat)
    requires QueueOk(p, s, bounds, bcur, start, start, hashedTo)
    ensures QueueOk(p, s + t, bounds, bcur, start, start, hashedTo)
  {
    forall i | 0 <= i < |bounds| ensures Hit(p, s + t, bounds[i]) { HitExtends(p, s, t, bounds[i]); }
    forall e: nat | start <= e < hashedTo && start + p.min <= e + 1 && Hit(p, s + t, e)
      ensures e in bounds[bcur..]
    {
      HitExtends(p, s, t, e);
    }
  }

  // Dropping what was taken off leaves the same queue.
  lemma {:induction false} QueueDropped(p: Params, s: seq<Byte>, bounds: seq<nat>, bcur: nat, start: nat,
                                        hashedTo: nat)
    requires QueueOk(p, s, bounds, bcur, start, start, hashedTo)
    ensures QueueOk(p, s, bounds[bcur..], 0, start, start, hashedTo)
  {
    assert bounds[bcur..][0..] == bounds[bcur..];
  }

  // The frontier may jump over bytes too close to start for a cut.
  lemma {:induction false} QueueSkipped(p: Params, s: seq<Byte>, bounds: seq<nat>, bcur: nat, start: nat, from: nat,
                                        hashedTo: nat, skip: nat)
    requires QueueOk(p, s, bounds, bcur, start, from, hashedTo)
    requires hashedTo <= skip && skip + 1 <= start + p.min
    ensures QueueOk(p, s, bounds, bcur, start, from, skip)
  {
  }

  // Hashing on from the frontier appends exactly the hits it passes.
  lemma {:induction false} QueueHashed(p: Params, s: seq<Byte>, bounds: seq<nat>, bcur: nat, start: nat, from: nat,
                                       hashedTo: nat, more: seq<nat>, end: nat)
    requires QueueOk(p, s, bounds, bcur, start, from, hashedTo)
    requires from <= hashedTo <= end <= |s| && Ascending(more)
    requires forall e: nat :: e in more <==> hashedTo <= e < end && Hit(p, s, e)
    ensures QueueOk(p, s, bounds + more, bcur, start, from, end)
  {
    var all := bounds + more;
    forall i | 0 <= i < |more| ensures hashedTo <= more[i] < end && Hit(p, s, more[i]) { assert more[i] in more; }
    forall e: nat | from <= e < end && start + p.min <= e + 1 && Hit(p, s, e)
      ensures e in all[bcur..]
    {
      assert all[bcur..] == bounds[bcur..] + more;
      if e >= hashedTo { assert e in more; }
    }
  }

  // Taking off a bound too close to start.
  lemma {:induction false} QueueSkipsShort(p: Params, s: seq<Byte>, bounds: seq<nat>, bcur: nat, start: nat,
                                           from: nat, hashedTo: nat)
    requires QueueOk(p, s, bounds, bcur, start, from, hashedTo)
    requires bcur < |bounds| && bounds[bcur] + 1 < start + p.min
    ensures QueueOk(p, s, bounds, bcur + 1, start, from, hashedTo)
  {
    assert bounds[bcur..] == [bounds[bcur]] + bounds[bcur + 1..];
  }

  // The first bound in range is the first in-range hit of the stream.
  lemma {:induction false} FirstBound(p: Params, s: seq<Byte>, bounds: seq<nat>, bcur: nat, start: nat, from: nat,
                                      hashedTo: nat, horizon: nat)
    requires QueueOk(p, s, bounds, bcur, start, from, hashedTo)
    requires bcur < |bounds| && InRange(p, s, start, bounds[bcur]) && bounds[bcur] < horizon
    ensures Scan(p, s, start, from, horizon) == Cut(bounds[bcur], true)
  {
    var e := bounds[bcur];
    forall g | from <= g < e && g < horizon ensures !InRange(p, s, start, g) {
      NotQueued(p, s, bounds, bcur, start, from, hashedTo, g);
    }
    ScanSkips(p, s, start, from, e, horizon);
  }

  lemma {:induction false} NotQueued(p: Params, s: seq<Byte>, bounds: seq<nat>, bcur: nat, start: nat, from: nat,
                                     hashedTo: nat, g: nat)
    requires QueueOk(p, s, bounds, bcur, start, from, hashedTo)
    requires from <= g < hashedTo
    requires bcur < |bounds| ==> (g < bounds[bcur] || PastMax(p, start, bounds[bcur]))
    ensures !InRange(p, s, start, g)
  {
    assert forall i :: bcur <= i < |bounds| ==> bounds[bcur] <= bounds[i];
  }

  // With no bound in range and nothing more to see, the chunk is cut at max or the bytes run out.
  lemma {:induction false} NoBound(p: Params, s: seq<Byte>, bounds: seq<nat>, bcur: nat, start: nat, from: nat,
                                   hashedTo: nat, horizon: nat)
    requires QueueOk(p, s, bounds, bcur, start, from, hashedTo) && p.max >= 1 && start <= |s|
    requires bcur < |bounds| ==> PastMax(p, start, bounds[bcur]) && start + p.min <= bounds[bcur] + 1
    requires horizon <= hashedTo || |s| <= hashedTo || |s| < p.window || PastMax(p, start, hashedTo)
    ensures Scan(p, s, start, from, horizon) ==
      if p.max != MAX_INT && start + p.max <= |s| then Cut(start + p.max - 1, false) else Exhausted
  {
    forall g | from <= g < |s| && g < horizon ensures !InRange(p, s, start, g) {
      if g < hashedTo { NotQueued(p, s, bounds, bcur, start, from, hashedTo, g); }
    }
    if p.max != MAX_INT && start + p.max <= |s| {
      ScanSkips(p, s, start, from, start + p.max - 1, horizon);
      assert start + p.max - 1 < horizon ==> !InRange(p, s, start, start + p.max - 1);
    } else {
      ScanSkips(p, s, start, from, |s|, horizon);
    }
  }

  // The queue of the next chunk, after a cut at e.
  lemma {:induction false} QueueCut(p: Params, s: seq<Byte>, bounds: seq<nat>, bcur: nat, start: nat, from: nat,
                                    hashedTo: nat, e: nat)
    requires QueueOk(p, s, bounds, bcur, start, from, hashedTo)
    requires from <= e && (bcur < |bounds| ==> e < bounds[bcur])
    ensures QueueOk(p, s, bounds, bcur, e + 1, e + 1, hashedTo)
  {
  }

  lemma {:induction false} QueueTaken(p: Params, s: seq<Byte>, bounds: seq<nat>, bcur: nat, start: nat, from: nat,
                                      hashedTo: nat)
    requires QueueOk(p, s, bounds, bcur, start, from, hashedTo) && bcur < |bounds|
    ensures QueueOk(p, s, bounds, bcur + 1, bounds[bcur] + 1, bounds[bcur] + 1, hashedTo)
  {
    assert bounds[bcur..] == [bounds[bcur]] + bounds[bcur + 1..];
  }

  lemma {:induction false} QueueDone(p: Params, s: seq<Byte>, bounds: seq<nat>, start: nat, from: nat, hashedTo: nat)
    requires QueueOk(p, s, bounds, |bounds|, start, from, hashedTo)
    ensures QueueOk(p, s, bounds, |bounds|, start, start, hashedTo)
  {
  }

  lemma {:induction false} QueueSpan(p: Params, s: seq<Byte>, bounds: seq<nat>, bcur: nat, start: nat, hashedTo: nat)
    requires QueueOk(p, s, bounds, bcur, start, start, hashedTo)
    ensures bcur < |bounds| ==> start < hashedTo
  {
    if bcur < |bounds| { assert start <= bounds[bcur]; }
  }
}
