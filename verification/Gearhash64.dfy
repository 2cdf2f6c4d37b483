/** The Gear hash on 64-bit words. */
module Gearhash {
  import opened Words
  import opened Lanes
  import Window

  type Table = t: seq<Word> | |t| == 256 witness seq(256, _ => 0)

  // A non-negative number modulo 2^64: the wrap-around of unsigned 64-bit arithmetic.
  function Wrap(x: int): Word {
    x % 0x1_0000_0000_0000_0000
  }

  // The sum the hash stands for, before wrap-around: every byte's table word, shifted left by its distance
  // from the end of the window.
  function GearSum(g: Table, s: seq<Byte>): nat {
    if s == [] then 0 else Shl(g[s[0]], |s| - 1) + GearSum(g, s[1..])
  }

  function Hash(g: Table, s: seq<Byte>): Word {
    Wrap(GearSum(g, s))
  }

  // The checksum as a function of the bytes alone.
  ghost function HashOf(g: Table): seq<Byte> -> Word {
    (s: seq<Byte>) => Hash(g, s)
  }

  lemma {:induction false} GearSnoc(g: Table, s: seq<Byte>, c: Byte)
    ensures GearSum(g, s + [c]) == 2 * GearSum(g, s) + g[c]
  {
    if s == [] {
      assert [c][1..] == [];
    } else {
      assert (s + [c])[1..] == s[1..] + [c];
      GearSnoc(g, s[1..], c);
    }
  }

  // The shift of a word by w in 64-bit arithmetic; nothing is left of it from w = 64 on.
  function Shifted(x: Word, w: nat): Word {
    if w < 64 then Wrap(Shl(x, w)) else 0
  }

  lemma {:induction false} ShiftedOut(x: Word, w: nat)
    ensures Shifted(x, w) == Wrap(Shl(x, w))
  {
    if 64 <= w {
      ShlAdd(x, w - 64, 64);
      ShlWord(Shl(x, w - 64));
    }
  }

  ghost predicate IsShifted(g: Table, sh: Table, w: nat) {
    forall i :: 0 <= i < 256 ==> sh[i] == Shifted(g[i], w)
  }

  function GearKernel(g: Table, sh: Table): Kernel<Word> {
    Kernel(0, (v: Word, c: Byte) => Wrap(2 * v + g[c]),
           (v: Word, leave: Byte, enter: Byte) => Wrap(Wrap(2 * v) - sh[leave] + g[enter]),
           (v: Word) => v)
  }

  // Numbers that differ by a multiple of 2^64 wrap to the same word.
  lemma {:induction false} Congruent(x: int, y: int, k: int)
    requires x == y + k * TWO64
    ensures Wrap(x) == Wrap(y)
  {
  }

  lemma {:induction false} Wrapped(x: int) returns (k: int)
    ensures Wrap(x) == x - k * TWO64
  {
    k := x / TWO64;
  }

  lemma {:induction false} WarmStep(x: nat, c: nat)
    ensures Wrap(2 * Wrap(x) + c) == Wrap(2 * x + c)
  {
    hide Wrap;
    var k := Wrapped(x);
    Congruent(2 * Wrap(x) + c, 2 * x + c, -2 * k);
  }

  // No bytes hash to 0; absorbing a byte shifts everything before it by one and adds the byte's word, wrapping around.
  lemma {:induction false} HashSnoc(g: Table, s: seq<Byte>, c: Byte)
    ensures Hash(g, []) == 0 && Hash(g, s + [c]) == Wrap(2 * Hash(g, s) + g[c])
  {
    GearSnoc(g, s, c);
    WarmStep(GearSum(g, s), g[c]);
  }

  lemma {:induction false} FoldIsHash(g: Table, sh: Table, s: seq<Byte>)
    ensures Fold(GearKernel(g, sh), s) == Hash(g, s)
    decreases |s|
  {
    if s != [] {
      var init, c := s[..|s| - 1], s[|s| - 1];
      FoldIsHash(g, sh, init);
      assert init + [c] == s;
      HashSnoc(g, init, c);
    }
  }

  lemma {:induction false} RollStep(x: nat, gone: nat, rest: nat, c: nat)
    requires x == gone + rest
    ensures Wrap(Wrap(2 * Wrap(x)) - Wrap(2 * gone) + c) == Wrap(2 * rest + c)
  {
    hide Wrap;
    var i := Wrapped(x);
    var j := Wrapped(2 * Wrap(x));
    var k := Wrapped(2 * gone);
    Congruent(Wrap(2 * Wrap(x)) - Wrap(2 * gone) + c, 2 * rest + c, k - j - 2 * i);
  }

  // Shift, take the leaving byte's shifted word away, add the entering byte's word.
  lemma {:induction false} HashRolls(g: Table, s: seq<Byte>, c: Byte)
    requires s != []
    ensures Wrap(Wrap(2 * Hash(g, s)) - Shifted(g[s[0]], |s|) + g[c]) == Hash(g, s[1..] + [c])
  {
    var first, rest := Shl(g[s[0]], |s| - 1), GearSum(g, s[1..]);
    hide Wrap;
    ShiftedOut(g[s[0]], |s|);
    assert Shl(g[s[0]], |s|) == 2 * first;
    RollStep(GearSum(g, s), first, rest, g[c]);
    GearSnoc(g, s[1..], c);
  }

  lemma {:induction false} KernelRolls(g: Table, sh: Table, w: nat)
    requires IsShifted(g, sh, w)
    ensures Rolls(GearKernel(g, sh), w)
  {
    hide Wrap, Hash, Shifted;
    var k := GearKernel(g, sh);
    forall s: seq<Byte>, c: Byte | |s| == w > 0
      ensures k.step(Fold(k, s), s[0], c) == Fold(k, s[1..] + [c])
    {
      FoldIsHash(g, sh, s);
      FoldIsHash(g, sh, s[1..] + [c]);
      HashRolls(g, s, c);
    }
  }

  // Only the last 64 bytes of a window count.
  lemma {:induction false} Last64(g: Table, s: seq<Byte>)
    requires |s| >= 64
    ensures Hash(g, s) == Hash(g, s[|s| - 64..])
  {
    hide Wrap;
    if |s| == 64 {
      assert s[0..] == s;
    } else {
      var first, rest := Shl(g[s[0]], |s| - 1), s[1..];
      Last64(g, rest);
      assert rest[|rest| - 64..] == s[|s| - 64..];
      ShlAdd(g[s[0]], |s| - 65, 64);
      ShlWord(Shl(g[s[0]], |s| - 65));
      Congruent(first + GearSum(g, rest), GearSum(g, rest), Shl(g[s[0]], |s| - 65));
    }
  }

  // The table of words shifted by w, as cached for the leaving bytes; all zero from 64 on.
  method Shift(g: Table, w: nat) returns (sh: Table)
    ensures IsShifted(g, sh, w)
  {
    sh := seq(256, _ => 0);
    if w < 64 {
      for i := 0 to 256
        invariant forall j :: 0 <= j < i ==> sh[j] == Shifted(g[j], w)
      {
        sh := sh[i := Wrap(Shl(g[i], w))];
      }
    }
  }

  lemma {:induction false} KernelSums(g: Table, sh: Table, data: seq<Byte>, w: nat) returns (sums: seq<Word>)
    requires 0 < w <= |data| && IsShifted(g, sh, w)
    ensures sums == Checksums(HashOf(g), data, w)
    ensures Traced(GearKernel(g, sh), data, w, sums)
  {
    sums := Checksums(HashOf(g), data, w);
    KernelRolls(g, sh, w);
    forall i | 0 <= i < |sums| ensures sums[i] == Acc(GearKernel(g, sh), data, w, i) {
      FoldIsHash(g, sh, data[i..i + w]);
    }
  }

  class GearHash64 {
    var sum: Word
    var window: array<Byte>
    var oldest: nat
    const gear: Table
    var shiftedGear: Table

    // The bytes of the window, oldest first.
    ghost function Contents(): seq<Byte>
      requires oldest <= window.Length
      reads this, window
    {
      Window.Rotation(window[..], oldest)
    }

    ghost predicate Valid()
      reads this, window
    {
      && oldest <= window.Length
      && (0 < window.Length ==> oldest < window.Length && IsShifted(gear, shiftedGear, window.Length))
      && sum == Hash(gear, Contents())
    }

    constructor (g: Table)
      ensures Valid() && fresh(window) && gear == g && Contents() == []
    {
      sum, oldest := 0, 0;
      window := new Byte[0];
      gear, shiftedGear := g, g;
    }

    method Reset()
      modifies this
      ensures Valid() && fresh(window) && Contents() == []
    {
      window := new Byte[0];
      oldest := 0;
      sum := 0;
    }

    method Write(data: seq<Byte>)
      requires Valid()
      modifies this, window
      ensures Valid() && (window == old(window) || fresh(window))
      ensures Contents() == old(Contents()) + data
    {
      hide Shifted, Shl, Hash;
      if |data| == 0 { return; }
      if oldest != 0 {
        Window.MoveLeft(window, oldest);
        oldest := 0;
      }
      assert window[..] == old(Contents());
      window := Window.Append(window, data);
      sum := HashWindow(window);
      assert window[..] == Contents();
      shiftedGear := Shift(gear, window.Length);
    }

    // The whole window from the start.
    method HashWindow(w: array<Byte>) returns (v: Word)
      ensures v == Hash(gear, w[..])
    {
      hide Hash, Wrap;
      v := 0;
      HashSnoc(gear, [], 0);
      for i := 0 to w.Length
        invariant v == Hash(gear, w[..i])
      {
        HashSnoc(gear, w[..i], w[i]);
        assert w[..i + 1] == w[..i] + [w[i]];
        v := Wrap(2 * v + gear[w[i]]);
      }
      assert w[..w.Length] == w[..];
    }

    method Sum64() returns (v: Word)
      requires Valid()
      ensures v == Hash(gear, Contents())
    {
      v := sum;
    }

    method Roll(c: Byte)
      requires Valid() && window.Length > 0
      modifies this, window
      ensures Valid() && window == old(window) && window.Length == old(window.Length)
      ensures Contents() == old(Contents())[1..] + [c]
    {
      hide Hash, Shifted, Wrap;
      HashRolls(gear, Contents(), c);
      Window.Slide(window[..], oldest, c);
      var h0 := shiftedGear[window[oldest]];
      var hn := gear[c];
      window[oldest] := c;
      var l := window.Length;
      oldest := oldest + 1;
      if oldest >= l {
        oldest := 0;
      }
      sum := Wrap(Wrap(2 * sum) - h0 + hn);
    }

    method BatchRoll(dst: array<Word>, data: seq<Byte>, w: int)
      requires 0 < w <= |data| ==> dst.Length == |data| - w + 1
      modifies dst
      ensures 0 < w <= |data| ==> dst[..] == Checksums(HashOf(gear), data, w)
      ensures forall i :: 0 < w <= |data| && 0 <= i <= |data| - w ==> dst[i] == Hash(gear, data[i..i + w])
    {
      if w <= 0 || |data| < w { return; }
      var sh := Shift(gear, w);
      ghost var sums := KernelSums(gear, sh, data, w);
      Lanes.BatchRoll(GearKernel(gear, sh), dst, data, w, sums);
    }

    method BatchBoundaries(a: array<Int32>, b: array<Int32>, data: seq<Byte>, w: int, mask: Word)
      returns (na: nat, nb: nat)
      requires 0 < w <= |data| ==> Buffers(a, b, |data| - w + 1)
      modifies a, b
      ensures na <= a.Length && nb <= b.Length
      ensures a[..na] + b[..nb] ==
        if 0 < w <= |data|
        then Hits(Checksums(HashOf(gear), data, w), mask, 0, |data| - w + 1)
        else []
    {
      if w <= 0 || |data| < w { return 0, 0; }
      var sh := Shift(gear, w);
      ghost var sums := KernelSums(gear, sh, data, w);
      na, nb := Lanes.BatchBoundariesInBlocks(GearKernel(gear, sh), a, b, data, w, mask, sums);
    }
  }
}
