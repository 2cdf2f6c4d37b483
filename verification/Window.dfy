/** The circular byte window of a digest: in-place rotation, append and slide. */
module Window {
  import opened Words

  // The bytes of a circular buffer, oldest first.
  function Rotation<T>(s: seq<T>, oldest: nat): seq<T>
    requires oldest <= |s|
  {
    s[oldest..] + s[..oldest]
  }

  function Reversed<T>(s: seq<T>): seq<T> {
    seq(|s|, i requires 0 <= i < |s| => s[|s| - 1 - i])
  }

  // s with the slice [lo, hi) reversed.
  function ReversedIn<T>(s: seq<T>, lo: nat, hi: nat): (r: seq<T>)
    requires lo <= hi <= |s|
    ensures |r| == |s|
  {
    s[..lo] + Reversed(s[lo..hi]) + s[hi..]
  }

  // Reversing both parts and then the whole exchanges the parts.
  lemma {:induction false} RotationByReversal<T>(s: seq<T>, oldest: nat)
    requires oldest <= |s|
    ensures ReversedIn(ReversedIn(ReversedIn(s, 0, oldest), oldest, |s|), 0, |s|) == Rotation(s, oldest)
  {
    var x, y := s[..oldest], s[oldest..];
    assert ReversedIn(s, 0, oldest) == Reversed(x) + y;
    assert ReversedIn(Reversed(x) + y, oldest, |s|) == Reversed(x) + Reversed(y);
    var t := Reversed(x) + Reversed(y);
    assert t[0..|s|] == t && ReversedIn(t, 0, |s|) == Reversed(t);
    ReversedConcat(Reversed(x), Reversed(y));
    ReversedTwice(x);
    ReversedTwice(y);
  }

  lemma {:induction false} ReversedConcat<T>(x: seq<T>, y: seq<T>)
    ensures Reversed(x + y) == Reversed(y) + Reversed(x)
  {
  }

  lemma {:induction false} ReversedTwice<T>(x: seq<T>)
    ensures Reversed(Reversed(x)) == x
  {
  }

  // Reverses the slice a[lo..hi] in place.
  method Reverse(a: array<Byte>, lo: nat, hi: nat)
    requires lo <= hi <= a.Length
    modifies a
    ensures a[..] == ReversedIn(old(a[..]), lo, hi)
  {
    var n := hi - lo;
    for i := 0 to n / 2
      invariant forall k :: 0 <= k < a.Length ==>
        a[k] == old(if lo <= k < lo + i || hi - i <= k < hi then a[lo + hi - 1 - k] else a[k])
    {
      var j := n - i - 1;
      a[lo + i], a[lo + j] := a[lo + j], a[lo + i];
    }
  }

  method MoveLeft(window: array<Byte>, oldest: nat)
    requires oldest <= window.Length
    modifies window
    ensures window[..] == Rotation(old(window[..]), oldest)
  {
    hide ReversedIn;
    RotationByReversal(window[..], oldest);
    Reverse(window, 0, oldest);
    Reverse(window, oldest, window.Length);
    Reverse(window, 0, window.Length);
  }

  // How a writer answers one call: the bytes it took, and whether it failed.
  datatype Answer = Answer(n: nat, failed: bool)

  // Hands the window to a writer in two pieces, oldest first, unless the first call fails. The count is what the calls
  // made have taken; a writer that takes all it is given whenever it does not fail has taken the whole window.
  method Write(window: array<Byte>, oldest: nat, first: Answer, second: Answer)
    returns (out: seq<Byte>, n: nat, failed: bool)
    requires oldest <= window.Length
    ensures out <= Rotation(window[..], oldest)
    ensures failed ==>
      out == if oldest < window.Length && first.failed then window[oldest..] else Rotation(window[..], oldest)
    ensures !failed ==> out == Rotation(window[..], oldest)
    ensures !failed && first.n == window.Length - oldest && second.n == oldest ==> n == window.Length
    ensures n == (if oldest < window.Length then first.n else 0)
      + (if oldest > 0 && !(oldest < window.Length && first.failed) then second.n else 0)
    ensures failed <==> (oldest < window.Length && first.failed) || (oldest > 0 && second.failed)
  {
    out, n, failed := [], 0, false;
    if oldest < window.Length {
      out := window[oldest..];
      n, failed := first.n, first.failed;
    }
    if !failed && oldest > 0 {
      out := out + window[..oldest];
      n, failed := n + second.n, second.failed;
    }
  }

  // The window grown by data, as append leaves it.
  method Append(window: array<Byte>, data: seq<Byte>) returns (grown: array<Byte>)
    ensures fresh(grown) && grown[..] == window[..] + data
  {
    var l := window.Length;
    grown := new Byte[l + |data|](i requires 0 <= i < l + |data| reads window =>
      if i < l then window[i] else data[i - l]);
  }

  // The slot after the oldest, wrapping around at the end of the buffer.
  function Next(oldest: nat, length: nat): nat {
    if oldest + 1 >= length then 0 else oldest + 1
  }

  // Overwriting the oldest byte and moving on slides the window by one byte.
  lemma {:induction false} Slide<T>(s: seq<T>, oldest: nat, c: T)
    requires oldest < |s|
    ensures Rotation(s[oldest := c], Next(oldest, |s|)) == Rotation(s, oldest)[1..] + [c]
  {
  }
}
