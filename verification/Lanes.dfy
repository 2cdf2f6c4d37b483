/**
 The bulk loops every hash shares: two independent lanes over the windows of a
 buffer, either storing each checksum (BatchRoll) or recording the positions
 whose checksum meets the mask (BatchBoundaries).

 A hash enters through a Kernel: its accumulator, the warm-up step that absorbs
 one byte, the rolling step that swaps the leaving byte for the entering one,
 and the reading of the accumulator as a 64-bit checksum.
 */
module Lanes {
  import opened Words

  type Int32 = x: int | -0x8000_0000 <= x < 0x8000_0000

  datatype Kernel<!V> = Kernel(
    init: V, warm: (V, Byte) -> V, step: (V, Byte, Byte) -> V, sum: V -> Word)

  // Absorbs the bytes of s one after another, oldest first.
  function Fold<V>(k: Kernel<V>, s: seq<Byte>): V {
    if s == [] then k.init else k.warm(Fold(k, s[..|s| - 1]), s[|s| - 1])
  }

  // The accumulator of the window that starts at i.
  function Acc<V>(k: Kernel<V>, data: seq<Byte>, w: nat, i: nat): V
    requires i + w <= |data|
  {
    Fold(k, data[i..i + w])
  }

  // The rolling step is right for windows of w bytes: it lands where absorbing the next window would.
  ghost predicate Rolls<V>(k: Kernel<V>, w: nat) {
    forall s: seq<Byte>, c: Byte :: |s| == w > 0 ==> k.step(Fold(k, s), s[0], c) == Fold(k, s[1..] + [c])
  }

  // sums lists the checksum of every window of w bytes, in order.
  ghost predicate SumsOf<V>(k: Kernel<V>, data: seq<Byte>, w: nat, sums: seq<Word>) {
    && 0 < w <= |data|
    && |sums| == |data| - w + 1
    && forall i :: 0 <= i < |sums| ==> sums[i] == k.sum(Acc(k, data, w, i))
  }

  // The checksums under h of all the windows of w bytes, in order.
  ghost function Checksums(h: seq<Byte> -> Word, data: seq<Byte>, w: nat): seq<Word>
    requires 0 < w <= |data|
  {
    seq(|data| - w + 1, i requires 0 <= i <= |data| - w => h(data[i..i + w]))
  }

  ghost predicate Traced<V>(k: Kernel<V>, data: seq<Byte>, w: nat, sums: seq<Word>) {
    0 < w <= |data| && |sums| == |data| - w + 1 && SumsOf(k, data, w, sums) && Rolls(k, w)
  }

  // The naive scan: positions of [lo, hi) whose checksum meets the mask, ascending.
  function Hits(sums: seq<Word>, mask: Word, lo: nat, hi: nat): seq<nat>
    requires hi <= |sums|
  {
    if hi <= lo then []
    else Hits(sums, mask, lo, hi - 1) + (if And(sums[hi - 1], mask) == 0 then [hi - 1] else [])
  }

  lemma {:induction false} HitsNone(sums: seq<Word>, mask: Word, p: nat)
    requires p <= |sums|
    ensures Hits(sums, mask, p, p) == []
  {
  }

  lemma {:induction false} HitsLength(sums: seq<Word>, mask: Word, lo: nat, hi: nat)
    requires lo <= hi <= |sums|
    ensures |Hits(sums, mask, lo, hi)| <= hi - lo
  {
    if lo < hi { HitsLength(sums, mask, lo, hi - 1); }
  }

  lemma {:induction false} HitsSplit(sums: seq<Word>, mask: Word, lo: nat, mid: nat, hi: nat)
    requires lo <= mid <= hi <= |sums|
    ensures Hits(sums, mask, lo, hi) == Hits(sums, mask, lo, mid) + Hits(sums, mask, mid, hi)
  {
    if mid < hi { HitsSplit(sums, mask, lo, mid, hi - 1); }
  }

  // Exactly the positions that meet the mask, each once, in ascending order.
  lemma {:induction false} HitsExact(sums: seq<Word>, mask: Word, lo: nat, hi: nat)
    requires hi <= |sums|
    ensures var hs := Hits(sums, mask, lo, hi);
      && (forall p: nat :: p in hs <==> lo <= p < hi && And(sums[p], mask) == 0)
      && (forall i, j :: 0 <= i < j < |hs| ==> hs[i] < hs[j])
  {
    if lo < hi {
      HitsExact(sums, mask, lo, hi - 1);
      var hs := Hits(sums, mask, lo, hi - 1);
      forall i | 0 <= i < |hs| ensures hs[i] < hi - 1 { assert hs[i] in hs; }
    }
  }

  lemma {:induction false} HitsGap(sums: seq<Word>, mask: Word, lo: nat, mid: nat, hi: nat)
    requires lo <= mid <= hi <= |sums|
    requires forall p :: mid <= p < hi ==> And(sums[p], mask) != 0
    ensures Hits(sums, mask, lo, hi) == Hits(sums, mask, lo, mid)
  {
    if mid < hi { HitsGap(sums, mask, lo, mid, hi - 1); }
  }

  // One rolling step moves the accumulator of window i to that of window i + 1.
  lemma {:induction false} StepAt<V>(k: Kernel<V>, data: seq<Byte>, w: nat, sums: seq<Word>, i: nat)
    requires SumsOf(k, data, w, sums) && i + 1 < |sums| && Rolls(k, w)
    ensures i + w < |data|
    ensures k.step(Acc(k, data, w, i), data[i], data[i + w]) == Acc(k, data, w, i + 1)
    ensures sums[i + 1] == k.sum(Acc(k, data, w, i + 1))
  {
    hide Fold;
    var s := data[i..i + w];
    assert s[1..] + [data[i + w]] == data[i + 1..i + 1 + w];
  }

  method WarmUp<V>(k: Kernel<V>, data: seq<Byte>, start: nat, w: nat, ghost sums: seq<Word>) returns (v: V)
    requires SumsOf(k, data, w, sums) && start < |sums|
    ensures v == Acc(k, data, w, start) && k.sum(v) == sums[start]
  {
    v := k.init;
    for j := 0 to w
      invariant v == Fold(k, data[start..start + j])
    {
      assert data[start..start + j + 1][..j] == data[start..start + j];
      v := k.warm(v, data[start + j]);
    }
  }

  method BatchRoll<V>(k: Kernel<V>, dst: array<Word>, data: seq<Byte>, w: int, ghost sums: seq<Word>)
    requires 0 < w <= |data| ==> Traced(k, data, w, sums) && dst.Length == |sums|
    modifies dst
    ensures if 0 < w <= |data| then dst[..] == sums else dst[..] == old(dst[..])
  {
    hide Rolls, SumsOf, Acc, Hits;
    if w <= 0 || |data| < w { return; }
    var n := |data| - w;
    var half := (n + 2) / 2;

    var vA := WarmUp(k, data, 0, w, sums);
    dst[0] := k.sum(vA);
    // With a single output there is nothing left for a second lane, nor for the first.
    if half > n { return; }

    var vB := WarmUp(k, data, half, w, sums);
    dst[half] := k.sum(vB);

    var ia, ib := 0, half;
    while ia < half - 1 && ib < n
      invariant 0 <= ia < half <= ib <= n
      invariant vA == Acc(k, data, w, ia) && vB == Acc(k, data, w, ib)
      invariant forall j :: 0 <= j <= ia || half <= j <= ib ==> dst[j] == sums[j]
    {
      StepAt(k, data, w, sums, ia);
      StepAt(k, data, w, sums, ib);
      vA := k.step(vA, data[ia], data[ia + w]);
      dst[ia + 1] := k.sum(vA);
      vB := k.step(vB, data[ib], data[ib + w]);
      dst[ib + 1] := k.sum(vB);
      ia := ia + 1;
      ib := ib + 1;
    }
    while ia < half - 1
      invariant 0 <= ia < half
      invariant vA == Acc(k, data, w, ia)
      invariant forall j :: 0 <= j <= ia || half <= j <= ib ==> dst[j] == sums[j]
    {
      StepAt(k, data, w, sums, ia);
      vA := k.step(vA, data[ia], data[ia + w]);
      dst[ia + 1] := k.sum(vA);
      ia := ia + 1;
    }
    while ib < n
      invariant half <= ib <= n
      invariant vB == Acc(k, data, w, ib)
      invariant forall j :: 0 <= j <= ib ==> dst[j] == sums[j]
    {
      StepAt(k, data, w, sums, ib);
      vB := k.step(vB, data[ib], data[ib + w]);
      dst[ib + 1] := k.sum(vB);
      ib := ib + 1;
    }
  }

  // The buffers are large enough for either lane and every position fits an int32.
  ghost predicate Buffers(a: array<Int32>, b: array<Int32>, n: nat) {
    a != b && a.Length >= n && b.Length >= n && n <= 0x8000_0000
  }

  // The masked test at the end of every step: store the position when its checksum meets the mask.
  method Mark(buf: array<Int32>, m: nat, pos: nat, ghost sums: seq<Word>, sum: Word, mask: Word, ghost lo: nat)
    returns (m': nat)
    requires lo <= pos < |sums| <= buf.Length && |sums| <= 0x8000_0000
    requires m <= |sums| && buf[..m] == Hits(sums, mask, lo, pos) && sum == sums[pos]
    modifies buf
    ensures m' <= |sums| && buf[..m'] == Hits(sums, mask, lo, pos + 1)
  {
    HitsLength(sums, mask, lo, pos);
    m' := m;
    if And(sum, mask) == 0 {
      buf[m] := pos;
      m' := m + 1;
      assert buf[..m'] == buf[..m] + [pos];
    }
  }

  method BatchBoundaries<V>(k: Kernel<V>, a: array<Int32>, b: array<Int32>, data: seq<Byte>, w: int, mask: Word,
                            ghost sums: seq<Word>)
    returns (na: nat, nb: nat)
    requires 0 < w <= |data| ==> Traced(k, data, w, sums) && Buffers(a, b, |sums|)
    modifies a, b
    ensures na <= a.Length && nb <= b.Length
    ensures a[..na] + b[..nb] == if 0 < w <= |data| then Hits(sums, mask, 0, |sums|) else []
  {
    hide Rolls, SumsOf, Acc, Hits;
    na, nb := 0, 0;
    if w <= 0 || |data| < w { return; }
    var n := |data| - w;
    var half := (n + 2) / 2;

    HitsNone(sums, mask, 0);
    var vA := WarmUp(k, data, 0, w, sums);
    na := Mark(a, na, 0, sums, k.sum(vA), mask, 0);
    if half > n { return; }

    HitsNone(sums, mask, half);
    var vB := WarmUp(k, data, half, w, sums);
    nb := Mark(b, nb, half, sums, k.sum(vB), mask, half);
    na, nb := FinishLanes(k, a, b, data, w, mask, sums, half, vA, vB, 0, half, na, nb);
  }

  // Both lanes so far: each accumulator stands at its own position and each buffer holds its lane's hits up to there.
  ghost predicate LanesAt<V>(k: Kernel<V>, a: array<Int32>, b: array<Int32>, data: seq<Byte>, w: nat, mask: Word,
                             sums: seq<Word>, half: nat, vA: V, vB: V, ia: nat, ib: nat, na: nat, nb: nat)
    reads a, b
  {
    && Traced(k, data, w, sums) && Buffers(a, b, |sums|)
    && ia < half <= ib < |sums|
    && na <= |sums| && nb <= |sums|
    && vA == Acc(k, data, w, ia) && vB == Acc(k, data, w, ib)
    && a[..na] == Hits(sums, mask, 0, ia + 1)
    && b[..nb] == Hits(sums, mask, half, ib + 1)
  }

  // One lane on its own, from position i0 to its last position.
  method RunLane<V>(k: Kernel<V>, buf: array<Int32>, data: seq<Byte>, w: nat, mask: Word, ghost sums: seq<Word>,
                    ghost lo: nat, v0: V, i0: nat, last: nat, m0: nat)
    returns (m: nat)
    requires Traced(k, data, w, sums) && lo <= i0 <= last < |sums| <= buf.Length && |sums| <= 0x8000_0000
    requires v0 == Acc(k, data, w, i0)
    requires m0 <= |sums| && buf[..m0] == Hits(sums, mask, lo, i0 + 1)
    modifies buf
    ensures m <= |sums| && buf[..m] == Hits(sums, mask, lo, last + 1)
  {
    hide Rolls, SumsOf, Acc, Hits;
    var v, i := v0, i0;
    m := m0;
    while i < last
      invariant i0 <= i <= last
      invariant v == Acc(k, data, w, i)
      invariant m <= |sums| && buf[..m] == Hits(sums, mask, lo, i + 1)
    {
      StepAt(k, data, w, sums, i);
      v := k.step(v, data[i], data[i + w]);
      m := Mark(buf, m, i + 1, sums, k.sum(v), mask, lo);
      i := i + 1;
    }
  }

  // The joint loop from (ia0, ib0) on, then the clean-up loops: whichever lane is longer runs to its end alone.
  method FinishLanes<V>(k: Kernel<V>, a: array<Int32>, b: array<Int32>, data: seq<Byte>, w: nat, mask: Word,
                        ghost sums: seq<Word>, half: nat, vA0: V, vB0: V, ia0: nat, ib0: nat, na0: nat, nb0: nat)
    returns (na: nat, nb: nat)
    requires LanesAt(k, a, b, data, w, mask, sums, half, vA0, vB0, ia0, ib0, na0, nb0)
    modifies a, b
    ensures na <= a.Length && nb <= b.Length
    ensures a[..na] + b[..nb] == Hits(sums, mask, 0, |sums|)
  {
    hide Rolls, SumsOf, Acc, Hits;
    var n := |data| - w;
    var vA, vB, ia: nat, ib: nat := vA0, vB0, ia0, ib0;
    na, nb := na0, nb0;
    while ia < half - 1 && ib < n
      invariant LanesAt(k, a, b, data, w, mask, sums, half, vA, vB, ia, ib, na, nb)
    {
      StepAt(k, data, w, sums, ia);
      StepAt(k, data, w, sums, ib);
      vA := k.step(vA, data[ia], data[ia + w]);
      na := Mark(a, na, ia + 1, sums, k.sum(vA), mask, 0);
      vB := k.step(vB, data[ib], data[ib + w]);
      nb := Mark(b, nb, ib + 1, sums, k.sum(vB), mask, half);
      ia := ia + 1;
      ib := ib + 1;
    }
    na := RunLane(k, a, data, w, mask, sums, 0, vA, ia, half - 1, na);
    nb := RunLane(k, b, data, w, mask, sums, half, vB, ib, n, nb);
    HitsSplit(sums, mask, 0, half, |sums|);
  }

  // ----- the block form: hits of 32 steps of both lanes gathered as bits of one word

  const BLOCK_SIZE: nat := 32

  // The conditional "bits |= 1 << i" of the inner loop.
  function Flag(bits: nat, i: nat, sum: Word, mask: Word): nat {
    if And(sum, mask) == 0 then Or(bits, Shl(1, i)) else bits
  }

  lemma {:induction false} FlagBit(bits: nat, i: nat, sum: Word, mask: Word, j: nat)
    ensures Bit(Flag(bits, i, sum, mask), j) == (Bit(bits, j) || (j == i && And(sum, mask) == 0))
  {
    BitOr(bits, Shl(1, i), j);
    BitPow2(i, j);
  }

  // The low half of bits flags the hits among the first j positions after pA, the high half those after pB.
  ghost predicate Packed(bits: nat, sums: seq<Word>, mask: Word, pA: nat, pB: nat, j: nat)
    requires j <= BLOCK_SIZE && pA + j <= |sums| && pB + j <= |sums|
  {
    forall i: nat :: Bit(bits, i) ==
      ((i < j && And(sums[pA + i], mask) == 0) || (32 <= i < 32 + j && And(sums[pB + i - 32], mask) == 0))
  }

  lemma {:induction false} PackStep(bits: nat, sums: seq<Word>, mask: Word, pA: nat, pB: nat, j: nat)
    requires j < BLOCK_SIZE && pA + j < |sums| && pB + j < |sums| && Packed(bits, sums, mask, pA, pB, j)
    ensures Packed(Flag(Flag(bits, j, sums[pA + j], mask), j + 32, sums[pB + j], mask), sums, mask, pA, pB, j + 1)
  {
    var b1 := Flag(bits, j, sums[pA + j], mask);
    var b2 := Flag(b1, j + 32, sums[pB + j], mask);
    forall i: nat
      ensures Bit(b2, i) ==
        ((i < j + 1 && And(sums[pA + i], mask) == 0) || (32 <= i < 33 + j && And(sums[pB + i - 32], mask) == 0))
    {
      FlagBit(bits, j, sums[pA + j], mask, i);
      FlagBit(b1, j + 32, sums[pB + j], mask, i);
    }
  }

  // The two-fold unrolled inner loop over one block.
  method RunBlock<V>(k: Kernel<V>, data: seq<Byte>, w: nat, mask: Word, ghost sums: seq<Word>,
                     ia: nat, ib: nat, vA0: V, vB0: V)
    returns (bits: Word, vA: V, vB: V)
    requires Traced(k, data, w, sums) && ia + BLOCK_SIZE < |sums| && ib + BLOCK_SIZE < |sums|
    requires vA0 == Acc(k, data, w, ia) && vB0 == Acc(k, data, w, ib)
    ensures vA == Acc(k, data, w, ia + BLOCK_SIZE) && vB == Acc(k, data, w, ib + BLOCK_SIZE)
    ensures Packed(bits, sums, mask, ia + 1, ib + 1, BLOCK_SIZE)
  {
    hide Rolls, SumsOf, Acc, Packed, Flag;
    vA, vB := vA0, vB0;
    var acc := 0;
    NothingPacked(sums, mask, ia + 1, ib + 1);
    var j := 0;
    while j < BLOCK_SIZE
      invariant j % 2 == 0 && j <= BLOCK_SIZE
      invariant vA == Acc(k, data, w, ia + j) && vB == Acc(k, data, w, ib + j)
      invariant Packed(acc, sums, mask, ia + 1, ib + 1, j)
    {
      StepAt(k, data, w, sums, ia + j);
      StepAt(k, data, w, sums, ib + j);
      vA := k.step(vA, data[ia + j], data[ia + j + w]);
      vB := k.step(vB, data[ib + j], data[ib + j + w]);
      PackStep(acc, sums, mask, ia + 1, ib + 1, j);
      acc := Flag(acc, j, k.sum(vA), mask);
      acc := Flag(acc, j + 32, k.sum(vB), mask);
      StepAt(k, data, w, sums, ia + j + 1);
      StepAt(k, data, w, sums, ib + j + 1);
      vA := k.step(vA, data[ia + j + 1], data[ia + j + 1 + w]);
      vB := k.step(vB, data[ib + j + 1], data[ib + j + 1 + w]);
      PackStep(acc, sums, mask, ia + 1, ib + 1, j + 1);
      acc := Flag(acc, j + 1, k.sum(vA), mask);
      acc := Flag(acc, j + 33, k.sum(vB), mask);
      j := j + 2;
    }
    PackedFits(acc, sums, mask, ia + 1, ib + 1);
    bits := acc;
  }

  lemma {:induction false} NothingPacked(sums: seq<Word>, mask: Word, pA: nat, pB: nat)
    requires pA <= |sums| && pB <= |sums|
    ensures Packed(0, sums, mask, pA, pB, 0)
  {
    forall i: nat ensures !Bit(0, i) { BitZero(i); }
  }

  lemma {:induction false} PackedFits(bits: nat, sums: seq<Word>, mask: Word, pA: nat, pB: nat)
    requires pA + BLOCK_SIZE <= |sums| && pB + BLOCK_SIZE <= |sums|
    requires Packed(bits, sums, mask, pA, pB, BLOCK_SIZE)
    ensures bits < TWO64
  {
    FitsWord(bits);
  }

  // bits flags exactly the hits at positions from `from` on among the 32 that start at p.
  ghost predicate Flags(bits: nat, sums: seq<Word>, mask: Word, p: nat, from: nat)
    requires p + BLOCK_SIZE <= |sums|
  {
    forall i: nat :: Bit(bits, i) == (from <= i < BLOCK_SIZE && And(sums[p + i], mask) == 0)
  }

  // Trailing-zeros extraction of one lane's flags, lowest position first.
  method Extract(buf: array<Int32>, m0: nat, flags: nat, p: nat, ghost sums: seq<Word>, mask: Word, ghost lo: nat)
    returns (m: nat)
    requires lo <= p && p + BLOCK_SIZE <= |sums| <= buf.Length && |sums| <= 0x8000_0000
    requires Flags(flags, sums, mask, p, 0)
    requires m0 <= |sums| && buf[..m0] == Hits(sums, mask, lo, p)
    modifies buf
    ensures m <= |sums| && buf[..m] == Hits(sums, mask, lo, p + BLOCK_SIZE)
  {
    hide And, Bit, Hits, Flags, TrailingZeros;
    var left := flags;
    ghost var from: nat := 0;
    m := m0;
    while left != 0
      invariant from <= BLOCK_SIZE && Flags(left, sums, mask, p, from)
      invariant m <= |sums| && buf[..m] == Hits(sums, mask, lo, p + from)
      decreases left
    {
      var z := TrailingZeros(left);
      NextFlag(left, sums, mask, p, from, lo);
      buf[m] := p + z;
      assert buf[..m + 1] == buf[..m] + [p + z];
      m := m + 1;
      from := z + 1;
      left := And(left, left - 1);
    }
    NoFlags(sums, mask, p, from, lo);
  }

  // The lowest flag is the next hit; clearing it leaves the flags above it.
  lemma {:induction false} NextFlag(left: nat, sums: seq<Word>, mask: Word, p: nat, from: nat, lo: nat)
    requires left > 0 && lo <= p && p + BLOCK_SIZE <= |sums| && Flags(left, sums, mask, p, from)
    ensures var z := TrailingZeros(left);
      && from <= z < BLOCK_SIZE
      && Hits(sums, mask, lo, p + z + 1) == Hits(sums, mask, lo, p + from) + [p + z]
      && |Hits(sums, mask, lo, p + from)| < |sums|
      && And(left, left - 1) < left && Flags(And(left, left - 1), sums, mask, p, z + 1)
  {
    var z := TrailingZeros(left);
    LowestBit(left, z);
    forall q | p + from <= q < p + z ensures And(sums[q], mask) != 0 {
      LowestBit(left, q - p);
    }
    HitsGap(sums, mask, lo, p + from, p + z);
    HitsLength(sums, mask, lo, p + z);
    AndBound(left, left - 1);
    var next := And(left, left - 1);
    forall i: nat ensures Bit(next, i) == (z + 1 <= i < BLOCK_SIZE && And(sums[p + i], mask) == 0) {
      ClearLowest(left, i);
      if i <= z { LowestBit(left, i); }
    }
  }

  lemma {:induction false} NoFlags(sums: seq<Word>, mask: Word, p: nat, from: nat, lo: nat)
    requires from <= BLOCK_SIZE && lo <= p && p + BLOCK_SIZE <= |sums| && Flags(0, sums, mask, p, from)
    ensures Hits(sums, mask, lo, p + BLOCK_SIZE) == Hits(sums, mask, lo, p + from)
  {
    forall q | p + from <= q < p + BLOCK_SIZE ensures And(sums[q], mask) != 0 { BitZero(q - p); }
    HitsGap(sums, mask, lo, p + from, p + BLOCK_SIZE);
  }

  // The two lanes' flags are taken apart by the low-half mask and the shift by 32.
  lemma {:induction false} SplitFlags(bits: nat, sums: seq<Word>, mask: Word, pA: nat, pB: nat)
    requires pA + BLOCK_SIZE <= |sums| && pB + BLOCK_SIZE <= |sums|
    requires Packed(bits, sums, mask, pA, pB, BLOCK_SIZE)
    ensures Flags(And(bits, 0xffff_ffff), sums, mask, pA, 0)
    ensures Flags(Shr(bits, 32), sums, mask, pB, 0)
  {
    var low, high := And(bits, 0xffff_ffff), Shr(bits, 32);
    forall i: nat
      ensures Bit(low, i) == (i < BLOCK_SIZE && And(sums[pA + i], mask) == 0)
      ensures Bit(high, i) == (i < BLOCK_SIZE && And(sums[pB + i], mask) == 0)
    {
      BitAnd(bits, 0xffff_ffff, i);
      BitLow32(i);
      BitShr(bits, 32, i);
    }
  }

  // One block of both lanes: run it, take the flags apart and extract the positions.
  method JointBlock<V>(k: Kernel<V>, a: array<Int32>, b: array<Int32>, data: seq<Byte>, w: nat, mask: Word,
                       ghost sums: seq<Word>, half: nat, vA0: V, vB0: V, base: nat, na0: nat, nb0: nat)
    returns (vA: V, vB: V, na: nat, nb: nat)
    requires LanesAt(k, a, b, data, w, mask, sums, half, vA0, vB0, base, half + base, na0, nb0)
    requires base + BLOCK_SIZE < half && half + base + BLOCK_SIZE < |sums|
    modifies a, b
    ensures LanesAt(k, a, b, data, w, mask, sums, half, vA, vB, base + BLOCK_SIZE, half + base + BLOCK_SIZE, na, nb)
  {
    hide Rolls, SumsOf, Acc, Packed, Flags, Hits;
    var bitsAB;
    bitsAB, vA, vB := RunBlock(k, data, w, mask, sums, base, half + base, vA0, vB0);
    SplitFlags(bitsAB, sums, mask, base + 1, half + base + 1);
    na := Extract(a, na0, And(bitsAB, 0xffff_ffff), base + 1, sums, mask, 0);
    nb := Extract(b, nb0, Shr(bitsAB, 32), half + base + 1, sums, mask, half);
  }

  method BatchBoundariesInBlocks<V>(k: Kernel<V>, a: array<Int32>, b: array<Int32>, data: seq<Byte>, w: int,
                                    mask: Word, ghost sums: seq<Word>)
    returns (na: nat, nb: nat)
    requires 0 < w <= |data| ==> Traced(k, data, w, sums) && Buffers(a, b, |sums|)
    modifies a, b
    ensures na <= a.Length && nb <= b.Length
    ensures a[..na] + b[..nb] == if 0 < w <= |data| then Hits(sums, mask, 0, |sums|) else []
  {
    hide Rolls, SumsOf, Acc, Hits;
    na, nb := 0, 0;
    if w <= 0 || |data| < w { return; }
    var n := |data| - w;
    var half := (n + 2) / 2;

    HitsNone(sums, mask, 0);
    var vA := WarmUp(k, data, 0, w, sums);
    na := Mark(a, na, 0, sums, k.sum(vA), mask, 0);
    if half > n { return; }

    HitsNone(sums, mask, half);
    var vB := WarmUp(k, data, half, w, sums);
    nb := Mark(b, nb, half, sums, k.sum(vB), mask, half);

    var limit := if half - 1 < n - half then half - 1 else n - half;
    var fullBlocks := limit / BLOCK_SIZE;
    for blk := 0 to fullBlocks
      invariant LanesAt(k, a, b, data, w, mask, sums, half, vA, vB, blk * BLOCK_SIZE, half + blk * BLOCK_SIZE, na, nb)
    {
      vA, vB, na, nb := JointBlock(k, a, b, data, w, mask, sums, half, vA, vB, blk * BLOCK_SIZE, na, nb);
    }
    var ia := fullBlocks * BLOCK_SIZE;
    na, nb := FinishLanes(k, a, b, data, w, mask, sums, half, vA, vB, ia, half + ia, na, nb);
  }
}
