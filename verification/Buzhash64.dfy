/** The cyclic polynomial hash on 64-bit words. */
module Buzhash {
  import opened Words
  import opened Lanes
  import Window

  // bits.RotateLeft64(x, 1)
  function Rot1(x: Word): Word {
    (2 * x) % 0x1_0000_0000_0000_0000 + x / 0x8000_0000_0000_0000
  }

  // bits.RotateLeft64(x, n)
  function RotL(x: Word, n: nat): Word {
    if n == 0 then x else Rot1(RotL(x, n - 1))
  }

  lemma {:induction false} BitRot1(x: Word, k: nat)
    ensures Bit(Rot1(x), k) == (k < 64 && Bit(x, if k == 0 then 63 else k - 1))
  {
    hide Shl, Pow2;
    WordPowers();
    var top := if k == 0 then 63 else k - 1;
    TopBit(x, 63, top);
    if k >= 64 {
      NoHighBit(Rot1(x), 64, k);
    } else if x < 0x8000_0000_0000_0000 {
      assert Rot1(x) == 2 * x;
    } else {
      assert Rot1(x) == 2 * (x - 0x8000_0000_0000_0000) + 1;
    }
  }

  lemma {:induction false} BitRotL(x: Word, n: nat, k: nat)
    requires n <= 64 && k < 64
    ensures Bit(RotL(x, n), k) == Bit(x, if k < n then k + 64 - n else k - n)
    decreases n
  {
    if n > 0 {
      BitRot1(RotL(x, n - 1), k);
      BitRotL(x, n - 1, if k == 0 then 63 else k - 1);
    }
  }

  lemma {:induction false} Rot1Xor(x: Word, y: Word)
    ensures Xor(x, y) < TWO64 && Rot1(Xor(x, y)) == Xor(Rot1(x), Rot1(y))
  {
    XorWord(x, y);
    var l, r := Rot1(Xor(x, y)), Xor(Rot1(x), Rot1(y));
    forall k: nat ensures Bit(l, k) == Bit(r, k) {
      BitRot1(Xor(x, y), k);
      BitXor(Rot1(x), Rot1(y), k);
      BitRot1(x, k);
      BitRot1(y, k);
      if k < 64 { BitXor(x, y, if k == 0 then 63 else k - 1); }
    }
    SameBits(l, r);
  }

  lemma {:induction false} RotLAdd(x: Word, m: nat, n: nat)
    ensures RotL(RotL(x, m), n) == RotL(x, m + n)
  {
    if n > 0 { RotLAdd(x, m, n - 1); }
  }

  lemma {:induction false} FullTurn(x: Word)
    ensures RotL(x, 64) == x
  {
    ShlWord(1);
    var full := RotL(x, 64);
    forall k: nat ensures Bit(full, k) == Bit(x, k) {
      if k < 64 { BitRotL(x, 64, k); } else { NoHighBit(full, 64, k); NoHighBit(x, 64, k); }
    }
    SameBits(full, x);
  }

  // A full turn is no turn: only the count modulo 64 matters.
  lemma {:induction false} RotLPeriod(x: Word, n: nat)
    ensures RotL(x, n % 64) == RotL(x, n)
  {
    hide Rot1;
    if n >= 64 {
      FullTurn(x);
      RotLAdd(x, 64, n - 64);
      RotLPeriod(x, n - 64);
    }
  }

  // ----- the hash

  type Table = t: seq<Word> | |t| == 256 witness seq(256, _ => 0)

  // The cyclic polynomial: every byte's table word, rotated by its distance from the end of the window.
  function Hash(t: Table, s: seq<Byte>): (r: Word) {
    if s == [] then 0 else Xor64(RotL(t[s[0]], |s| - 1), Hash(t, s[1..]))
  }

  // The checksum as a function of the bytes alone.
  ghost function HashOf(t: Table): seq<Byte> -> Word {
    (s: seq<Byte>) => Hash(t, s)
  }

  // No bytes hash to 0; absorbing a byte on the right rotates everything before it by one.
  lemma {:induction false} HashSnoc(t: Table, s: seq<Byte>, c: Byte)
    ensures Hash(t, []) == 0 && Hash(t, s + [c]) == Xor64(Rot1(Hash(t, s)), t[c])
  {
    if s == [] {
      XorGroup(t[c], 0, 0);
    } else {
      assert (s + [c])[1..] == s[1..] + [c];
      HashSnoc(t, s[1..], c);
      var first, rest := RotL(t[s[0]], |s| - 1), Hash(t, s[1..]);
      Rot1Xor(first, rest);
      XorGroup(Rot1(first), Rot1(rest), t[c]);
    }
  }

  function BuzKernel(t: Table, rot: Table): Kernel<Word> {
    Kernel(0, (v: Word, c: Byte) => Xor64(Rot1(v), t[c]),
           (v: Word, leave: Byte, enter: Byte) => Xor64(Xor64(Rot1(v), rot[leave]), t[enter]),
           (v: Word) => v)
  }

  ghost predicate IsRotated(t: Table, rot: Table, n: nat) {
    forall i :: 0 <= i < 256 ==> rot[i] == RotL(t[i], n)
  }

  lemma {:induction false} FoldIsHash(t: Table, rot: Table, s: seq<Byte>)
    ensures Fold(BuzKernel(t, rot), s) == Hash(t, s)
    decreases |s|
  {
    if s != [] {
      var init := s[..|s| - 1];
      FoldIsHash(t, rot, init);
      HashSnoc(t, init, s[|s| - 1]);
      assert init + [s[|s| - 1]] == s;
    }
  }

  // Rotate, cancel the leaving byte's rotated word, add the entering byte's word.
  lemma {:induction false} HashRolls(t: Table, s: seq<Byte>, c: Byte)
    requires s != []
    ensures Xor64(Xor64(Rot1(Hash(t, s)), RotL(t[s[0]], |s| % 64)), t[c]) == Hash(t, s[1..] + [c])
  {
    var first, rest := RotL(t[s[0]], |s| - 1), Hash(t, s[1..]);
    Rot1Xor(first, rest);
    RotLPeriod(t[s[0]], |s|);
    var gone := Rot1(first);
    XorGroup(gone, Rot1(rest), gone);
    XorGroup(Rot1(rest), gone, gone);
    XorGroup(gone, gone, gone);
    HashSnoc(t, s[1..], c);
  }

  lemma {:induction false} KernelRolls(t: Table, rot: Table, w: nat)
    requires IsRotated(t, rot, w % 64)
    ensures Rolls(BuzKernel(t, rot), w)
  {
    var k := BuzKernel(t, rot);
    forall s: seq<Byte>, c: Byte | |s| == w > 0
      ensures k.step(Fold(k, s), s[0], c) == Fold(k, s[1..] + [c])
    {
      FoldIsHash(t, rot, s);
      FoldIsHash(t, rot, s[1..] + [c]);
      HashRolls(t, s, c);
    }
  }

  // The table of words rotated by n, as cached for the leaving bytes.
  method Rotate(t: Table, n: nat) returns (rot: Table)
    ensures IsRotated(t, rot, n)
  {
    rot := t;
    for i := 0 to 256
      invariant forall j :: 0 <= j < 256 ==> rot[j] == if j < i then RotL(t[j], n) else t[j]
    {
      rot := rot[i := RotL(t[i], n)];
    }
  }

  class Buzhash64 {
    var sum: Word
    var nRotate: nat
    var window: array<Byte>
    var oldest: nat
    const bytehash: Table
    var rotBH: Table

    // The bytes of the window, oldest first.
    ghost function Contents(): seq<Byte>
      requires oldest <= window.Length
      reads this, window
    {
      Window.Rotation(window[..], oldest)
    }

    ghost predicate Valid()
      reads this, window
    {
      && oldest <= window.Length
      && (0 < window.Length ==> oldest < window.Length && IsRotated(bytehash, rotBH, window.Length % 64))
      && sum == Hash(bytehash, Contents())
    }

    constructor (b: Table)
      ensures Valid() && fresh(window) && bytehash == b && Contents() == []
    {
      sum, nRotate, oldest := 0, 0, 0;
      window := new Byte[0];
      bytehash, rotBH := b, b;
    }

    method Reset()
      modifies this
      ensures Valid() && fresh(window) && Contents() == []
    {
      window := new Byte[0];
      oldest := 0;
      sum := 0;
    }

    method Write(data: seq<Byte>)
      requires Valid()
      modifies this, window
      ensures Valid() && (window == old(window) || fresh(window))
      ensures Contents() == old(Contents()) + data
    {
      hide Rot1, RotL, Xor64, Hash;
      if |data| == 0 { return; }
      if oldest != 0 {
        Window.MoveLeft(window, oldest);
        oldest := 0;
      }
      assert window[..] == old(Contents());
      window := Window.Append(window, data);
      sum := HashWindow(window);
      assert window[..] == Contents();
      nRotate := window.Length % 64;
      rotBH := Rotate(bytehash, nRotate);
    }

    // The whole window from the start.
    method HashWindow(w: array<Byte>) returns (v: Word)
      ensures v == Hash(bytehash, w[..])
    {
      hide Rot1, RotL, Xor64;
      v := 0;
      for i := 0 to w.Length
        invariant v == Hash(bytehash, w[..i])
      {
        HashSnoc(bytehash, w[..i], w[i]);
        assert w[..i + 1] == w[..i] + [w[i]];
        v := Rot1(v);
        v := Xor64(v, bytehash[w[i]]);
      }
      assert w[..w.Length] == w[..];
    }

    method Sum64() returns (v: Word)
      requires Valid()
      ensures v == Hash(bytehash, Contents())
    {
      v := sum;
    }

    method Roll(c: Byte)
      requires Valid() && window.Length > 0
      modifies this, window
      ensures Valid() && window == old(window) && window.Length == old(window.Length)
      ensures Contents() == old(Contents())[1..] + [c]
    {
      hide Hash, Rot1, RotL, Xor64;
      HashRolls(bytehash, Contents(), c);
      Window.Slide(window[..], oldest, c);
      var hn := bytehash[c];
      var h0 := rotBH[window[oldest]];
      window[oldest] := c;
      var l := window.Length;
      oldest := oldest + 1;
      if oldest >= l {
        oldest := 0;
      }
      sum := Xor64(Xor64(Rot1(sum), h0), hn);
    }

    method BatchRoll(dst: array<Word>, data: seq<Byte>, w: int)
      requires 0 < w <= |data| ==> dst.Length == |data| - w + 1
      modifies dst
      ensures 0 < w <= |data| ==> dst[..] == Checksums(HashOf(bytehash), data, w)
      ensures forall i :: 0 < w <= |data| && 0 <= i <= |data| - w ==> dst[i] == Hash(bytehash, data[i..i + w])
    {
      if w <= 0 || |data| < w { return; }
      var rot := Rotate(bytehash, w % 64);
      ghost var sums := KernelSums(bytehash, rot, data, w);
      Lanes.BatchRoll(BuzKernel(bytehash, rot), dst, data, w, sums);
    }

    method BatchBoundaries(a: array<Int32>, b: array<Int32>, data: seq<Byte>, w: int, mask: Word)
      returns (na: nat, nb: nat)
      requires 0 < w <= |data| ==> Buffers(a, b, |data| - w + 1)
      modifies a, b
      ensures na <= a.Length && nb <= b.Length
      ensures a[..na] + b[..nb] ==
        if 0 < w <= |data|
        then Hits(Checksums(HashOf(bytehash), data, w), mask, 0, |data| - w + 1)
        else []
    {
      if w <= 0 || |data| < w { return 0, 0; }
      var rot := Rotate(bytehash, w % 64);
      ghost var sums := KernelSums(bytehash, rot, data, w);
      na, nb := Lanes.BatchBoundariesInBlocks(BuzKernel(bytehash, rot), a, b, data, w, mask, sums);
    }
  }

  lemma {:induction false} KernelSums(t: Table, rot: Table, data: seq<Byte>, w: nat) returns (sums: seq<Word>)
    requires 0 < w <= |data| && IsRotated(t, rot, w % 64)
    ensures sums == Checksums(HashOf(t), data, w)
    ensures Traced(BuzKernel(t, rot), data, w, sums)
  {
    sums := Checksums(HashOf(t), data, w);
    KernelRolls(t, rot, w);
    forall i | 0 <= i < |sums| ensures sums[i] == Acc(BuzKernel(t, rot), data, w, i) {
      FoldIsHash(t, rot, data[i..i + w]);
    }
  }
}
