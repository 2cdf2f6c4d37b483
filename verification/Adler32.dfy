/** The rolling Adler-32 checksum. */
module Adler {
  import opened Words
  import opened Lanes
  import Window

  const MOD: nat := 65521

  newtype uint32 = x: int | 0 <= x < 0x1_0000_0000
  type Residue = x: uint32 | x < 65521

  // ----- section 2.2 of RFC 1950

  // s1, before reduction: one plus the sum of all bytes.
  function S1(s: seq<Byte>): nat {
    if s == [] then 1 else S1(s[..|s| - 1]) + s[|s| - 1]
  }

  // s2, before reduction: the sum of all values of s1.
  function S2(s: seq<Byte>): nat {
    if s == [] then 0 else S2(s[..|s| - 1]) + S1(s)
  }

  function Hash(s: seq<Byte>): Word {
    Reduce(S2(s)) * 65536 + Reduce(S1(s))
  }

  // The upper half holds s2, the lower half s1, each modulo 65521.
  lemma {:induction false} HashHalves(s: seq<Byte>)
    ensures Hash(s) / 65536 == S2(s) % 65521 && Hash(s) % 65536 == S1(s) % 65521
  {
    hide S1, S2;
  }

  // The checksum as a function value.
  ghost function HashOf(): seq<Byte> -> Word {
    (s: seq<Byte>) => Hash(s)
  }

  // What leaves with the first byte: the byte from s1; from s2 the byte as often as the window is long, and one.
  lemma {:induction false} SlideSums(s: seq<Byte>, c: Byte)
    requires s != []
    ensures S1(s[1..] + [c]) == S1(s) - s[0] + c
    ensures S2(s[1..] + [c]) == S2(s) + S1(s[1..] + [c]) - 1 - |s| * s[0]
    decreases |s|
  {
    Snoc(s[1..], c);
    DropFirst(s);
  }

  lemma {:induction false} Snoc(s: seq<Byte>, c: Byte)
    ensures S1([]) == 1 && S2([]) == 0
    ensures S1(s + [c]) == S1(s) + c && S2(s + [c]) == S2(s) + S1(s) + c
  {
    assert (s + [c])[..|s|] == s;
  }

  lemma {:induction false} DropFirst(s: seq<Byte>)
    requires s != []
    ensures S1(s) == S1(s[1..]) + s[0]
    ensures S2(s) == S2(s[1..]) + 1 + |s| * s[0]
    decreases |s|
  {
    if |s| == 1 {
      assert s[..0] == [] && s[1..] == [];
    } else {
      var init, c := s[..|s| - 1], s[|s| - 1];
      DropFirst(init);
      assert s == init + [c] && s[1..] == init[1..] + [c];
      Snoc(init, c);
      Snoc(init[1..], c);
      OneMore(|init|, s[0]);
    }
  }

  lemma {:induction false} OneMore(n: nat, x: nat)
    ensures (n + 1) * x == n * x + x
  {
  }

  // ----- the 32-bit update, every step of it within range

  function Reduce(x: int): nat {
    x % 65521
  }

  // Numbers that differ by a multiple of the modulus reduce to the same residue.
  lemma {:induction false} Congruent(x: int, y: int, k: int)
    requires x == y + k * MOD
    ensures Reduce(x) == Reduce(y)
  {
  }

  lemma {:induction false} Reduced(x: int) returns (k: int)
    ensures Reduce(x) == x - k * MOD
  {
    k := x / MOD;
  }

  datatype Acc32 = Acc32(a: Residue, b: Residue)

  function Absorb(v: Acc32, c: Byte): (r: Acc32)
    ensures r.a as nat == Reduce(v.a as nat + c) && r.b as nat == Reduce(v.b as nat + r.a as nat)
  {
    var a := (v.a + c as uint32) % 65521;
    Acc32(a, (v.b + a) % 65521)
  }

  lemma {:induction false} ProductFits(x: nat, y: nat)
    requires x < 65521 && y < 256
    ensures 0 <= x * y <= 65520 * 255
  {
    assert x * y <= 65520 * y;
  }

  function Slide(v: Acc32, wmod: Residue, leave: Byte, enter: Byte): (r: Acc32)
    ensures r.a as nat == Reduce(v.a as nat + MOD + enter - leave)
    ensures r.b as nat == Reduce(v.b as nat + r.a as nat + MOD - 1 - Reduce(wmod as nat * leave))
  {
    ProductFits(wmod as nat, leave);
    var a: uint32 := (v.a + 65521 + enter as uint32 - leave as uint32) % 65521;
    var product := wmod * leave as uint32;
    Acc32(a, (v.b + a + 65521 - 1 - product % 65521) % 65521)
  }

  // b<<16 | a
  function Sum32(v: Acc32): Word {
    PackedSum(v);
    Or(Shl(v.b as nat, 16), v.a as nat)
  }

  lemma {:induction false} PackedSum(v: Acc32)
    ensures Or(Shl(v.b as nat, 16), v.a as nat) == v.b as nat * 65536 + v.a as nat
  {
    ShlByte(v.b as nat);
    ShlAdd(v.b as nat, 8, 8);
    ShlByte(Shl(v.b as nat, 8));
    ShlByte(1);
    ShlAdd(1, 8, 8);
    ShlByte(Shl(1, 8));
    OrLow(v.b as nat, v.a as nat, 16);
  }

  // v stands for the bytes of s.
  ghost predicate Holds(v: Acc32, s: seq<Byte>) {
    v.a as nat == Reduce(S1(s)) && v.b as nat == Reduce(S2(s))
  }

  lemma {:induction false} AbsorbHolds(v: Acc32, s: seq<Byte>, c: Byte)
    requires Holds(v, s)
    ensures Holds(Absorb(v, c), s + [c])
  {
    hide Reduce, Absorb;
    Snoc(s, c);
    var i := Reduced(S1(s));
    Congruent(Reduce(S1(s)) + c, S1(s) + c, -i);
    var j := Reduced(S2(s));
    var k := Reduced(S1(s) + c);
    Congruent(Reduce(S2(s)) + Reduce(S1(s) + c), S2(s) + S1(s) + c, -j - k);
  }

  lemma {:induction false} SlideHolds(v: Acc32, wmod: Residue, s: seq<Byte>, c: Byte)
    requires Holds(v, s) && s != [] && wmod as nat == Reduce(|s|)
    ensures Holds(Slide(v, wmod, s[0], c), s[1..] + [c])
  {
    hide Reduce, Slide;
    SlideSums(s, c);
    var t, first := s[1..] + [c], s[0];
    var i := Reduced(S1(s));
    Congruent(Reduce(S1(s)) + MOD + c - first, S1(t), 1 - i);
    var j := Reduced(S2(s));
    var k := Reduced(S1(t));
    var m := Reduced(|s|);
    var n := Reduced(Reduce(|s|) * first);
    assert Reduce(|s|) * first == |s| * first - m * first * MOD by { Distribute(|s|, m, first); }
    Congruent(Reduce(S2(s)) + Reduce(S1(t)) + MOD - 1 - Reduce(Reduce(|s|) * first), S2(t), 1 - j - k + n + m * first);
  }

  lemma {:induction false} Distribute(x: int, m: int, y: int)
    ensures (x - m * MOD) * y == x * y - m * y * MOD
  {
  }

  // ----- the digest

  function AdlerKernel(wmod: Residue): Kernel<Acc32> {
    Kernel(Acc32(1, 0), (v: Acc32, c: Byte) => Absorb(v, c),
           (v: Acc32, leave: Byte, enter: Byte) => Slide(v, wmod, leave, enter),
           (v: Acc32) => Sum32(v))
  }

  lemma {:induction false} SumIsHash(v: Acc32, s: seq<Byte>)
    requires Holds(v, s)
    ensures Sum32(v) == Hash(s)
  {
    PackedSum(v);
  }

  lemma {:induction false} FoldHolds(wmod: Residue, s: seq<Byte>)
    ensures Holds(Fold(AdlerKernel(wmod), s), s)
    decreases |s|
  {
    hide Absorb, Slide;
    if s != [] {
      var init, c := s[..|s| - 1], s[|s| - 1];
      FoldHolds(wmod, init);
      AbsorbHolds(Fold(AdlerKernel(wmod), init), init, c);
      assert init + [c] == s;
    }
  }

  lemma {:induction false} KernelRolls(wmod: Residue, w: nat)
    requires wmod as nat == Reduce(w)
    ensures Rolls(AdlerKernel(wmod), w)
  {
    hide Reduce, Absorb, Slide;
    var k := AdlerKernel(wmod);
    forall s: seq<Byte>, c: Byte | |s| == w > 0
      ensures k.step(Fold(k, s), s[0], c) == Fold(k, s[1..] + [c])
    {
      FoldHolds(wmod, s);
      FoldHolds(wmod, s[1..] + [c]);
      SlideHolds(Fold(k, s), wmod, s, c);
    }
  }

  // The length of a window as the digest keeps it: cut to 32 bits, then reduced.
  function Length32(n: nat): Residue {
    ((n % 0x1_0000_0000) as uint32) % 65521
  }

  // Cutting the length to 32 bits leaves its residue, as it does for every length below 2^32.
  ghost predicate Counts(n: nat) {
    Length32(n) as nat == Reduce(n)
  }

  lemma {:induction false} ShortCounts(n: nat)
    requires n < 0x1_0000_0000
    ensures Counts(n)
  {
  }

  // Rolling with the length as kept is right for windows of w bytes just when cutting it did no harm.
  lemma {:induction false} RollsExactly(w: nat)
    requires w > 0
    ensures Rolls(AdlerKernel(Length32(w)), w) <==> Counts(w)
  {
    hide Reduce, Absorb, Slide, Length32;
    var wmod, k := Length32(w), AdlerKernel(Length32(w));
    if wmod as nat == Reduce(w) {
      KernelRolls(wmod, w);
    } else if Rolls(k, w) {
      var s: seq<Byte> := seq(w, i => if i == 0 then 1 else 0);
      var right := ResidueOf(w);
      assert k.step(Fold(k, s), s[0], 0) == Fold(k, s[1..] + [0]);
      FoldHolds(wmod, s);
      FoldHolds(wmod, s[1..] + [0]);
      SlideHolds(Fold(k, s), right, s, 0);
      SlideApart(Fold(k, s), wmod, right);
    }
  }

  // A byte that leaves takes from the sums what it should: it is zero, or cutting the length did no harm.
  ghost predicate LeavesRight(n: nat, leave: Byte) {
    leave == 0 || Counts(n)
  }

  lemma {:induction false} NoByteDivides(y: nat)
    requires 2 <= y < 256
    ensures 65521 % y != 0
  {
  }

  // The modulus is prime as far as bytes go: times a byte other than zero, no smaller number becomes a multiple of it.
  lemma {:induction false} NoZeroDivisor(d: nat, y: nat)
    requires 0 < d < MOD && 1 <= y < 256
    ensures Reduce(d * y) != 0
    decreases y
  {
    if y == 1 {
      SmallReduced(d);
    } else {
      var q, r := MOD / y, MOD % y;
      NoByteDivides(y);
      NoZeroDivisor(d, r);
      Remainder(d, y, q, r);
    }
  }

  // If d * y is a multiple of the modulus q * y + r, so is d * r.
  lemma {:induction false} Remainder(d: nat, y: nat, q: nat, r: nat)
    requires MOD == q * y + r
    ensures Reduce(d * y) == 0 ==> Reduce(d * r) == 0
  {
    hide Reduce;
    var k := Reduced(d * y);
    if Reduce(d * y) == 0 {
      assert d * r == (d - q * k) * MOD by {
        assert d * r == d * (MOD - q * y) == d * MOD - q * (d * y) == d * MOD - q * (k * MOD);
      }
      Congruent(d * r, 0, d - q * k);
      SmallReduced(0);
    }
  }

  // Lengths that differ take the same from the sums with a zero byte only.
  lemma {:induction false} CountsExactly(n: nat, leave: Byte)
    ensures Reduce(Reduce(n) * leave) == Reduce(n * leave)
    ensures Reduce(Length32(n) as nat * leave) == Reduce(n * leave) <==> LeavesRight(n, leave)
  {
    hide Reduce, Length32;
    var k := Reduced(n);
    Distribute(n, k, leave);
    Congruent(Reduce(n) * leave, n * leave, -k * leave);
    ReducedBounds(n);
    if leave != 0 && Length32(n) as nat != Reduce(n) { ProductsApart(Length32(n) as nat, Reduce(n), leave); }
  }

  lemma {:induction false} ProductsApart(x: nat, y: nat, b: Byte)
    requires x < MOD && y < MOD && x != y && b != 0
    ensures Reduce(x * b) != Reduce(y * b)
  {
    hide Reduce;
    var low, high := if x < y then x else y, if x < y then y else x;
    NoZeroDivisor(high - low, b);
    if Reduce(x * b) == Reduce(y * b) {
      var i := Reduced(low * b);
      var j := Reduced(high * b);
      assert (high - low) * b == high * b - low * b;
      Congruent((high - low) * b, 0, j - i);
      SmallReduced(0);
    }
  }

  // Rolling a window of any length is right if and only if the leaving byte is taken out right.
  lemma {:induction false} SlidesRight(v: Acc32, s: seq<Byte>, c: Byte)
    requires Holds(v, s) && s != []
    ensures Holds(Slide(v, Length32(|s|), s[0], c), s[1..] + [c]) <==> LeavesRight(|s|, s[0])
  {
    hide Reduce, Slide, Length32;
    var kept, right := Length32(|s|), ResidueOf(|s|);
    SlideHolds(v, right, s, c);
    CountsExactly(|s|, s[0]);
    var x := v.b as nat + Slide(v, right, s[0], c).a as nat + MOD - 1;
    var y, z := Reduce(kept as nat * s[0]), Reduce(right as nat * s[0]);
    ReducedBounds(kept as nat * s[0]);
    ReducedBounds(right as nat * s[0]);
    if y != z { Apart(x, y, z); }
  }

  lemma {:induction false} ReducedBounds(x: nat)
    ensures Reduce(x) < MOD
  {
  }

  function ResidueOf(x: nat): (r: Residue)
    ensures r as nat == Reduce(x)
  {
    (x % 65521) as uint32
  }

  // Different lengths slide a leaving 1 to different sums.
  lemma {:induction false} SlideApart(v: Acc32, m: Residue, n: Residue)
    requires m != n
    ensures Slide(v, m, 1, 0).b != Slide(v, n, 1, 0).b
  {
    hide Reduce, Slide;
    var x := v.b as nat + Slide(v, m, 1, 0).a as nat + MOD - 1;
    SmallReduced(m as nat);
    SmallReduced(n as nat);
    Apart(x, m as nat, n as nat);
  }

  lemma {:induction false} SmallReduced(x: nat)
    requires x < MOD
    ensures Reduce(x) == x
  {
  }

  lemma {:induction false} Apart(x: int, y: int, z: int)
    requires 0 <= y < MOD && 0 <= z < MOD && y != z
    ensures Reduce(x - y) != Reduce(x - z)
  {
  }

  lemma {:induction false} KernelSums(wmod: Residue, data: seq<Byte>, w: nat) returns (sums: seq<Word>)
    requires 0 < w <= |data| && wmod as nat == Reduce(w)
    ensures sums == Checksums(HashOf(), data, w)
    ensures Traced(AdlerKernel(wmod), data, w, sums)
  {
    hide Sum32, Hash, Reduce;
    sums := Checksums(HashOf(), data, w);
    KernelRolls(wmod, w);
    forall i | 0 <= i < |sums| ensures sums[i] == Sum32(Acc(AdlerKernel(wmod), data, w, i)) {
      FoldHolds(wmod, data[i..i + w]);
      SumIsHash(Acc(AdlerKernel(wmod), data, w, i), data[i..i + w]);
    }
  }

  // The whole-window checksum that Write takes from the standard library.
  method Vanilla(window: array<Byte>) returns (v: Acc32)
    ensures Holds(v, window[..])
  {
    hide Reduce, Absorb;
    v := Acc32(1, 0);
    EmptyHolds(v);
    for i := 0 to window.Length
      invariant Holds(v, window[..i])
    {
      AbsorbHolds(v, window[..i], window[i]);
      assert window[..i + 1] == window[..i] + [window[i]];
      v := Absorb(v, window[i]);
    }
    assert window[..window.Length] == window[..];
  }

  lemma {:induction false} EmptyHolds(v: Acc32)
    requires v == Acc32(1, 0)
    ensures Holds(v, [])
  {
  }

  class Adler32 {
    var v: Acc32
    var n: Residue
    var window: array<Byte>
    var oldest: nat

    // The bytes of the window, oldest first.
    ghost function Contents(): seq<Byte>
      requires oldest <= window.Length
      reads this, window
    {
      Window.Rotation(window[..], oldest)
    }

    ghost predicate Shaped()
      reads this, window
    {
      && oldest <= window.Length
      && (0 < window.Length ==> oldest < window.Length && n == Length32(window.Length))
    }

    ghost predicate Valid()
      reads this, window
    {
      Shaped() && Holds(v, Contents())
    }

    constructor ()
      ensures Valid() && fresh(window) && Contents() == []
    {
      v, n, oldest := Acc32(1, 0), 0, 0;
      window := new Byte[0];
      new;
      EmptyHolds(v);
    }

    method Reset()
      modifies this
      ensures Valid() && fresh(window) && Contents() == []
    {
      window := new Byte[0];
      oldest := 0;
      v, n := Acc32(1, 0), 0;
      EmptyHolds(v);
    }

    method Write(data: seq<Byte>)
      requires Shaped()
      modifies this, window
      ensures Shaped() && (window == old(window) || fresh(window))
      ensures old(Valid()) || data != [] ==> Valid()
      ensures Contents() == old(Contents()) + data
    {
      hide Holds;
      if |data| == 0 { return; }
      if oldest != 0 {
        Window.MoveLeft(window, oldest);
        oldest := 0;
      }
      assert window[..] == old(Contents());
      window := Window.Append(window, data);
      v := Vanilla(window);
      assert Contents() == window[..];
      n := Length32(window.Length);
    }

    method Sum64() returns (sum: Word)
      requires Valid()
      ensures sum == Hash(Contents())
      ensures sum / 65536 == S2(Contents()) % 65521 && sum % 65536 == S1(Contents()) % 65521
    {
      HashHalves(Contents());
      SumIsHash(v, Contents());
      sum := Sum32(v);
    }

    method Roll(b: Byte)
      requires Valid() && window.Length > 0
      modifies this, window
      ensures Shaped() && window == old(window) && window.Length == old(window.Length)
      ensures Contents() == old(Contents())[1..] + [b]
      ensures Valid() <==> LeavesRight(window.Length, old(Contents()[0]))
    {
      hide Holds, Slide, Reduce, Length32, LeavesRight;
      SlidesRight(v, Contents(), b);
      Window.Slide(window[..], oldest, b);
      var leave := window[oldest];
      window[oldest] := b;
      oldest := oldest + 1;
      if oldest >= window.Length {
        oldest := 0;
      }
      v := Slide(v, n, leave, b);
    }

    method BatchRoll(dst: array<Word>, data: seq<Byte>, w: int)
      requires 0 < w <= |data| ==> dst.Length == |data| - w + 1 && Counts(w)
      modifies dst
      ensures 0 < w <= |data| ==> dst[..] == Checksums(HashOf(), data, w)
      ensures forall i :: 0 < w <= |data| && 0 <= i <= |data| - w ==> dst[i] == Hash(data[i..i + w])
    {
      if w <= 0 || |data| < w { return; }
      var wmod := Length32(w);
      ghost var sums := KernelSums(wmod, data, w);
      Lanes.BatchRoll(AdlerKernel(wmod), dst, data, w, sums);
    }

    method BatchBoundaries(a: array<Int32>, b: array<Int32>, data: seq<Byte>, w: int, mask: Word)
      returns (na: nat, nb: nat)
      requires 0 < w <= |data| ==> Buffers(a, b, |data| - w + 1) && Counts(w)
      modifies a, b
      ensures na <= a.Length && nb <= b.Length
      ensures a[..na] + b[..nb] ==
        if 0 < w <= |data|
        then Hits(Checksums(HashOf(), data, w), mask, 0, |data| - w + 1)
        else []
    {
      if w <= 0 || |data| < w { return 0, 0; }
      var wmod := Length32(w);
      ghost var sums := KernelSums(wmod, data, w);
      na, nb := Lanes.BatchBoundaries(AdlerKernel(wmod), a, b, data, w, mask, sums);
    }
  }
}
