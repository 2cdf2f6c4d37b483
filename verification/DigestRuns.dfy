/** A digest over any run of writes, rolls and resets, and the bulk form of such a run. */
module DigestRuns {
  import opened Words
  import opened Hashing

  datatype Move = Put(bytes: seq<Byte>) | Roll(b: Byte) | Clear

  // The window a move leaves, oldest byte first.
  function Moved(window: seq<Byte>, move: Move): seq<Byte> {
    match move
    case Put(bytes) => window + bytes
    case Roll(b) => if window == [] then [] else window[1..] + [b]
    case Clear => []
  }

  // The window after the first n moves.
  ghost function WindowAfter(moves: seq<Move>, n: nat): seq<Byte>
    requires n <= |moves|
  {
    if n == 0 then [] else Moved(WindowAfter(moves, n - 1), moves[n - 1])
  }

  // No roll of an empty window, nor of one longer than the hash rolls.
  ghost predicate Allowed(scheme: Scheme, moves: seq<Move>) {
    forall i :: 0 <= i < |moves| ==> Fine(scheme, moves, i)
  }

  ghost predicate Fine(scheme: Scheme, moves: seq<Move>, i: nat)
    requires i < |moves|
  {
    moves[i].Roll? ==> WindowAfter(moves, i) != [] && scheme.Takes(|WindowAfter(moves, i)|)
  }

  // After every move the digest reports the checksum of the window so far, whatever moves led there.
  method Replay(scheme: Scheme, moves: seq<Move>) returns (sums: seq<Word>)
    requires Allowed(scheme, moves)
    ensures |sums| == |moves|
    ensures forall i :: 0 <= i < |moves| ==> sums[i] == scheme.Of(WindowAfter(moves, i + 1))
  {
    hide Scheme.Of, Hash.Valid, Hash.Contents, Hash.Kind, Moved;
    var h := New(scheme);
    sums := [];
    for i := 0 to |moves|
      invariant h.Valid() && fresh(h.Repr()) && h.Kind() == scheme && h.Contents() == WindowAfter(moves, i)
      invariant |sums| == i && forall j :: 0 <= j < i ==> sums[j] == scheme.Of(WindowAfter(moves, j + 1))
    {
      assert Fine(scheme, moves, i);
      var v := Make(h, moves[i]);
      sums := sums + [v];
    }
  }

  // One move, and the checksum it leads to.
  method Make(h: Hash, move: Move) returns (v: Word)
    requires h.Valid() && (move.Roll? ==> h.Contents() != [] && h.Kind().Takes(|h.Contents()|))
    modifies h.Repr()
    ensures h.Valid() && fresh(h.Repr() - old(h.Repr())) && h.Contents() == Moved(old(h.Contents()), move)
    ensures v == h.Kind().Of(h.Contents())
  {
    hide Scheme.Of, Scheme.Takes;
    match move {
      case Put(bytes) => h.Write(bytes);
      case Roll(b) => h.Roll(b);
      case Clear => h.Reset();
    }
    v := h.Sum();
  }

  // Write the first window, then roll in the other bytes.
  function OneByOne(data: seq<Byte>, w: nat): seq<Move>
    requires w <= |data|
  {
    [Put(data[..w])] + seq(|data| - w, i requires 0 <= i < |data| - w => Roll(data[w + i]))
  }

  lemma {:induction false} RollsSlide(data: seq<Byte>, w: nat, i: nat)
    requires 0 < w <= |data| && i <= |data| - w
    ensures WindowAfter(OneByOne(data, w), i + 1) == data[i..i + w]
  {
    var moves := OneByOne(data, w);
    if i > 0 {
      RollsSlide(data, w, i - 1);
      assert moves[i] == Roll(data[w + i - 1]);
      assert data[i - 1..i - 1 + w][1..] + [data[w + i - 1]] == data[i..i + w];
    } else {
      assert WindowAfter(moves, 0) == [];
    }
  }

  // The bulk checksums are those of writing the first window and rolling on one byte at a time.
  lemma {:induction false} BatchIsRolling(scheme: Scheme, data: seq<Byte>, w: nat)
    requires 0 < w <= |data| && scheme.Takes(w)
    ensures Allowed(scheme, OneByOne(data, w))
    ensures |scheme.Sums(data, w)| == |OneByOne(data, w)|
    ensures forall i :: 0 <= i <= |data| - w ==>
      scheme.Sums(data, w)[i] == scheme.Of(WindowAfter(OneByOne(data, w), i + 1))
  {
    hide Scheme.Of, WindowAfter;
    var moves, sums := OneByOne(data, w), scheme.Sums(data, w);
    forall i | 0 <= i < |moves| ensures Fine(scheme, moves, i) {
      if i > 0 { RollsSlide(data, w, i - 1); }
    }
    forall i | 0 <= i < |sums| ensures sums[i] == scheme.Of(WindowAfter(moves, i + 1)) {
      RollsSlide(data, w, i);
    }
  }
}
