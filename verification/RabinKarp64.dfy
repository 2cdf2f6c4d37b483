/** The Rabin-Karp fingerprint: the window as a polynomial over GF(2), reduced modulo a fixed one. */
module RabinKarp {
  import opened Words
  import opened Lanes
  import opened Polynomials
  import opened Residues
  import opened PolOps
  import Window

  // Degrees for which a remainder shifted by a byte still fits a word.
  ghost predicate Suitable(pol: Pol) {
    8 <= Deg(pol) <= 56
  }

  // The window read as one number, first byte first: its polynomial.
  function Message(s: seq<Byte>): nat {
    if s == [] then 0 else 256 * Message(s[..|s| - 1]) + s[|s| - 1]
  }

  ghost function Hash(pol: Pol, s: seq<Byte>): Word
    requires Suitable(pol)
  {
    ResidueFits(Message(s), pol);
    Mod(Message(s), pol)
  }

  lemma {:induction false} ResidueFits(x: nat, pol: Pol)
    requires pol > 0
    ensures Mod(x, pol) < TWO64
  {
    WordDeg(pol);
    WordDeg(Mod(x, pol));
  }

  // ----- shifting in a byte

  // v<<8 | c
  function Push(v: Word, c: Byte): Word {
    PushFits(v, c);
    Or(ShiftLeft(v, 8), c)
  }

  lemma {:induction false} PushFits(v: Word, c: Byte)
    ensures Or(ShiftLeft(v, 8), c) == Trunc(256 * v) + c < TWO64
  {
    hide Shl, Or;
    ShlByte(v);
    var w := v % 0x100_0000_0000_0000;
    assert Trunc(256 * v) == 256 * w;
    ShlByte(w);
    ShlByte(1);
    OrLow(w, c, 8);
  }

  // Bits below n and bits from n on do not meet: their sum is the polynomial sum.
  lemma {:induction false} XorLow(x: nat, y: nat, n: nat)
    requires y < Pow2(n)
    ensures Xor(Shl(x, n), y) == Shl(x, n) + y
  {
    hide Xor, Or, Shl, Pow2;
    OrLow(x, y, n);
    forall k: nat ensures Bit(Or(Shl(x, n), y), k) == Bit(Xor(Shl(x, n), y), k) {
      BitOr(Shl(x, n), y, k);
      BitXor(Shl(x, n), y, k);
      BitShl(x, n, k);
      if n <= k { NoHighBit(y, n, k); }
    }
    SameBits(Or(Shl(x, n), y), Xor(Shl(x, n), y));
  }

  // Pushing a byte onto a remainder and reducing is reducing the longer message.
  lemma {:induction false} PushMod(m: nat, c: Byte, pol: Pol)
    requires pol > 0
    ensures Mod(256 * Mod(m, pol) + c, pol) == Mod(256 * m + c, pol)
  {
    hide Mod, Mul, Xor, Shl;
    var r := Mod(m, pol);
    ShlByte(r);
    ShlByte(m);
    ShlByte(1);
    XorLow(r, c, 8);
    XorLow(m, c, 8);
    MulPow2(8, r);
    MulPow2(8, m);
    ModMul(Pow2(8), m, pol);
    ModAdd(Shl(r, 8), c, pol);
    ModAdd(Shl(m, 8), c, pol);
  }

  lemma {:induction false} MessageSnoc(s: seq<Byte>, c: Byte)
    ensures Message(s + [c]) == 256 * Message(s) + c
  {
    assert (s + [c])[..|s|] == s;
  }

  // No bytes have fingerprint 0; another byte multiplies by X^8, adds the byte and reduces.
  lemma {:induction false} HashSnoc(pol: Pol, s: seq<Byte>, c: Byte)
    requires Suitable(pol)
    ensures Hash(pol, []) == 0 && Hash(pol, s + [c]) == Mod(256 * Hash(pol, s) + c, pol)
  {
    hide Mod, Message;
    MessageSnoc(s, c);
    PushMod(Message(s), c, pol);
    NothingLeft(pol);
  }

  lemma {:induction false} NothingLeft(pol: Pol)
    requires pol > 0
    ensures Message([]) == 0 && Mod(0, pol) == 0
  {
  }

  // A remainder has room for another byte.
  lemma {:induction false} PushRoom(v: Word, c: Byte, pol: Pol)
    requires Suitable(pol) && Deg(v) < Deg(pol)
    ensures Push(v, c) == 256 * v + c && 256 * v + c < Pow2(Deg(pol) + 8)
  {
    hide Shl, Or, Trunc, Deg;
    var k := Deg(pol);
    PushFits(v, c);
    DegPow2(v, k);
    ShlAdd(1, k, 8);
    ShlByte(Pow2(k));
    DegPow2(256 * v + c, k + 8);
    WordDeg(256 * v + c);
    TruncSmall(256 * v);
  }

  lemma {:induction false} TruncSmall(x: nat)
    requires x < TWO64
    ensures Trunc(x) == x
  {
  }

  // ----- the tables

  type Table = t: seq<Word> | |t| == 256 witness seq(256, _ => 0)

  datatype Tables = Tables(out: Table, mod: Table)

  // out[b] is b followed by windowsize - 1 zero bytes, reduced; mod[b] joins b X^k, reduced, with b X^k itself.
  ghost predicate TablesOf(t: Tables, pol: Pol, windowsize: nat) {
    && pol > 0
    && (forall b: nat :: b < 256 ==> t.out[b] == Mod(Shl(b, 8 * Behind(windowsize)), pol))
    && (forall b: nat :: b < 256 ==> t.mod[b] == Or(Mod(Shl(b, Deg(pol)), pol), Shl(b, Deg(pol))))
  }

  // How many bytes stand behind the first byte of a window.
  function Behind(windowsize: nat): nat {
    if windowsize == 0 then 0 else windowsize - 1
  }

  lemma {:induction false} OutStep(b: nat, n: nat, h: Word, pol: Pol)
    requires Suitable(pol) && h == Mod(Shl(b, 8 * n), pol)
    ensures Mod(ShiftLeft(h, 8), pol) == Mod(Shl(b, 8 * (n + 1)), pol)
  {
    hide Mod, Shl, Or, Xor;
    PushRoom(h, 0, pol);
    PushFits(h, 0);
    ShlByte(h);
    ShlAdd(b, 8 * n, 8);
    ShlByte(Shl(b, 8 * n));
    PushMod(Shl(b, 8 * n), 0, pol);
  }

  lemma {:induction false} ModEntryFits(b: Byte, pol: Pol)
    requires Suitable(pol)
    ensures ShiftLeft(b, Deg(pol)) == Shl(b, Deg(pol))
    ensures Or(Mod(Shl(b, Deg(pol)), pol), Shl(b, Deg(pol))) < TWO64
  {
    hide Mod, Shl, Or;
    var k := Deg(pol);
    var top := Shl(b, k);
    TopFits(b, k);
    forall j: nat | 64 <= j ensures !Bit(Or(Mod(top, pol), top), j) {
      BitOr(Mod(top, pol), top, j);
      ResidueFits(top, pol);
      WordPowers();
      NoHighBit(Mod(top, pol), 64, j);
      NoHighBit(top, 64, j);
    }
    FitsWord(Or(Mod(top, pol), top));
  }

  lemma {:induction false} TopFits(b: Byte, k: nat)
    requires k <= 56
    ensures Shl(b, k) < TWO64
  {
    if b > 0 {
      DegShl(b, k);
      DegPow2(b, 8);
      ShlByte(1);
    } else {
      MulPow2(k, 0);
      MulZeroOne(Pow2(k));
    }
    WordDeg(Shl(b, k));
  }

  method BuildTables(pol: Pol, windowsize: nat) returns (t: Tables)
    requires Suitable(pol)
    ensures TablesOf(t, pol, windowsize)
  {
    hide Mod, Div, Shl, Or, Trunc;
    var out: seq<Word>, mod: seq<Word> := seq(256, _ => 0), seq(256, _ => 0);
    for b: nat := 0 to 256
      invariant |out| == 256 && forall j: nat :: j < b ==> out[j] == Mod(Shl(j, 8 * Behind(windowsize)), pol)
    {
      var h := OutEntry(pol, b, windowsize);
      out := out[b := h];
    }
    var k := Deg(pol);
    for b: nat := 0 to 256
      invariant |mod| == 256 && forall j: nat :: j < b ==> mod[j] == Or(Mod(Shl(j, k), pol), Shl(j, k))
    {
      ModEntryFits(b, pol);
      var reduced := DivMod(ShiftLeft(b, k), pol);
      mod := mod[b := Or(reduced.value.1, ShiftLeft(b, k))];
    }
    t := Tables(out, mod);
  }

  method OutEntry(pol: Pol, b: Byte, windowsize: nat) returns (h: Pol)
    requires Suitable(pol)
    ensures h == Mod(Shl(b, 8 * Behind(windowsize)), pol)
  {
    hide Mod, Div, Or, Trunc;
    var first := DivMod(b, pol);
    h := first.value.1;
    for n := 0 to Behind(windowsize)
      invariant h == Mod(Shl(b, 8 * n), pol)
    {
      OutStep(b, n, h, pol);
      var next := DivMod(ShiftLeft(h, 8), pol);
      h := next.value.1;
    }
  }

  // ----- rolling

  // One exclusive or with the table entry of the bits above the degree reduces.
  lemma {:induction false} TableReduces(v: nat, pol: Pol)
    requires Suitable(pol) && v < Pow2(Deg(pol) + 8)
    ensures var k := Deg(pol); var index := Shr(v, k);
      && index < 256
      && Xor(v, Or(Mod(Shl(index, k), pol), Shl(index, k))) == Mod(v, pol)
  {
    hide Mod, Shl, Shr, Or, Xor, LowBits, Pow2;
    var k := Deg(pol);
    var index := Shr(v, k);
    var low, top := LowBits(v, k), Shl(index, k);
    IndexFits(v, k);
    LowHigh(v, k);
    XorLow(index, low, k);
    DegPow2(low, k);
    ModSmall(low, pol);
    ModAdd(top, low, pol);
    var r := Mod(top, pol);
    DisjointOr(r, index, k);
    // (top + low) + (r + top) = low + r
    XorSwap(top, low, top, r);
    XorGroup(top, top, 0);
    XorGroup(r, top, 0);
    XorGroup(Xor(low, r), 0, 0);
    XorGroup(low, r, 0);
  }

  lemma {:induction false} IndexFits(v: nat, k: nat)
    requires v < Pow2(k + 8)
    ensures Shr(v, k) < 256
  {
    hide Shr, Pow2;
    forall j: nat | 8 <= j ensures !Bit(Shr(v, k), j) {
      BitShr(v, k, j);
      NoHighBit(v, k + 8, j + k);
    }
    BoundByBits(Shr(v, k), 8);
    PowEight();
  }

  lemma {:induction false} PowEight()
    ensures Pow2(8) == 256
  {
    ShlByte(1);
  }

  lemma {:induction false} DisjointOr(r: nat, x: nat, k: nat)
    requires Deg(r) < k
    ensures Or(r, Shl(x, k)) == Xor(r, Shl(x, k))
  {
    hide Or, Xor, Shl;
    DegPow2(r, k);
    forall j: nat ensures Bit(Or(r, Shl(x, k)), j) == Bit(Xor(r, Shl(x, k)), j) {
      BitOr(r, Shl(x, k), j);
      BitXor(r, Shl(x, k), j);
      BitShl(x, k, j);
      if k <= j { NoHighBit(r, k, j); }
    }
    SameBits(Or(r, Shl(x, k)), Xor(r, Shl(x, k)));
  }

  // value ^ out[leave], shifted, ^ mod[index of the top bits]
  function RollOn(t: Tables, polShift: nat, value: Word, leave: Byte, enter: Byte): Word
  {
    var v := Xor64(value, t.out[leave]);
    Xor64(Push(v, enter), t.mod[Shr(v, polShift) % 256])
  }

  // The first byte stands windowsize - 1 bytes up.
  lemma {:induction false} MessageFirst(s: seq<Byte>)
    requires s != []
    ensures Message(s) == Shl(s[0], 8 * (|s| - 1)) + Message(s[1..])
    ensures Message(s[1..]) < Pow2(8 * (|s| - 1))
    decreases |s|
  {
    if |s| == 1 {
      assert s[..0] == [] && s[1..] == [];
    } else {
      var init, c, n := s[..|s| - 1], s[|s| - 1], 8 * (|s| - 2);
      MessageFirst(init);
      assert s[1..][..|s| - 2] == init[1..];
      ShlAdd(s[0], n, 8);
      ShlByte(Shl(s[0], n));
      ShlAdd(1, n, 8);
      ShlByte(Shl(1, n));
    }
  }

  // Taking the leaving byte out of the remainder.
  lemma {:induction false} LeaveOut(s: seq<Byte>, pol: Pol)
    requires pol > 0 && s != []
    ensures Xor(Mod(Message(s), pol), Mod(Shl(s[0], 8 * (|s| - 1)), pol)) == Mod(Message(s[1..]), pol)
  {
    hide Mod, Xor, Shl, Pow2, Message;
    var n := 8 * (|s| - 1);
    var first, rest := Shl(s[0], n), Message(s[1..]);
    MessageFirst(s);
    XorLow(s[0], rest, n);
    ModAdd(first, rest, pol);
    XorCancel(Mod(rest, pol), Mod(first, pol));
    XorCancel(Mod(first, pol), Mod(rest, pol));
  }

  // One roll through the tables turns the remainder of a window into that of the next.
  lemma {:induction false} RollIsHash(t: Tables, pol: Pol, s: seq<Byte>, c: Byte)
    requires Suitable(pol) && s != [] && TablesOf(t, pol, |s|)
    ensures RollOn(t, Deg(pol) - 8, Hash(pol, s), s[0], c) == Hash(pol, s[1..] + [c])
  {
    hide Mod, Xor, Shl, Shr, Or, Push, Pow2, Message;
    var k := Deg(pol);
    LeaveOut(s, pol);
    var v: Word := Xor64(Hash(pol, s), t.out[s[0]]);
    PushRoom(v, c, pol);
    var pushed := 256 * v + c;
    TableReduces(pushed, pol);
    ShrPush(v, c, k);
    PushMod(Message(s[1..]), c, pol);
    MessageSnoc(s[1..], c);
  }

  // The bits above the degree of the pushed value are the top eight of the value before.
  lemma {:induction false} ShrPush(v: nat, c: Byte, k: nat)
    requires k >= 8
    ensures Shr(256 * v + c, k) == Shr(v, k - 8)
  {
    hide Shr, LowBits, Shl;
    var x := 256 * v + c;
    ShrTwice(x, 8, k - 8);
    LowHigh(x, 8);
    ShlByte(Shr(x, 8));
    ShlByte(1);
  }

  lemma {:induction false} ShrTwice(x: nat, m: nat, n: nat)
    ensures Shr(x, m + n) == Shr(Shr(x, m), n)
    decreases m
  {
    if m > 0 { ShrTwice(x / 2, m - 1, n); }
  }

  // ----- the bulk loops

  type RabinPol = p: Pol | 0x100 <= p < 0x200_0000_0000_0000 witness 0x100

  lemma {:induction false} RabinPolSuits(p: Pol)
    ensures Suitable(p) <==> 0x100 <= p < 0x200_0000_0000_0000
    ensures Suitable(p) ==> Deg(p) >= 8
  {
    hide Shl, Pow2, Deg;
    DegPow2(p, 8);
    DegPow2(p, 57);
    PowEight();
    PowFiftySeven();
  }

  lemma {:induction false} PowFiftySeven()
    ensures Pow2(57) == 0x200_0000_0000_0000
  {
    hide Shl;
    ShlWord(1);
    ShlAdd(1, 57, 7);
    ShiftSeven(Pow2(57));
  }

  lemma {:induction false} ShiftSeven(x: nat)
    ensures Shl(x, 7) == 128 * x
  {
    assert Shl(x, 1) == 2 * x;
    assert Shl(x, 3) == 8 * x;
    assert Shl(x, 5) == 32 * x;
  }

  function Reduce(v: Word, pol: RabinPol): Word {
    ResidueFits(v, pol);
    Mod(v, pol)
  }

  function RabinKernel(t: Tables, pol: RabinPol, polShift: nat): Kernel<Word> {
    Kernel(0, (v: Word, c: Byte) => Reduce(Push(v, c), pol),
           (v: Word, leave: Byte, enter: Byte) => RollOn(t, polShift, v, leave, enter),
           (v: Word) => v)
  }

  lemma {:induction false} AbsorbByte(m: nat, c: Byte, pol: RabinPol)
    ensures pol > 0 && Suitable(pol)
    ensures Mod(m, pol) < TWO64 && Reduce(Push(Mod(m, pol), c), pol) == Mod(256 * m + c, pol)
  {
    hide Mod, Push, Suitable;
    RabinPolSuits(pol);
    ResidueFits(m, pol);
    PushRoom(Mod(m, pol), c, pol);
    PushMod(m, c, pol);
  }

  lemma {:induction false} FoldIsHash(t: Tables, pol: RabinPol, polShift: nat, s: seq<Byte>)
    ensures Suitable(pol) && Fold(RabinKernel(t, pol, polShift), s) == Hash(pol, s)
    decreases |s|
  {
    hide Mod, Push, RollOn, Suitable, Reduce;
    RabinPolSuits(pol);
    NothingLeft(pol);
    if s != [] {
      var init, c := s[..|s| - 1], s[|s| - 1];
      FoldIsHash(t, pol, polShift, init);
      AbsorbByte(Message(init), c, pol);
    }
  }

  lemma {:induction false} KernelRolls(t: Tables, pol: RabinPol, w: nat)
    requires Suitable(pol) && (w > 0 ==> TablesOf(t, pol, w))
    ensures Rolls(RabinKernel(t, pol, Deg(pol) - 8), w)
  {
    hide Mod, Push, RollOn, Suitable, Hash, TablesOf;
    RabinPolSuits(pol);
    var k := RabinKernel(t, pol, Deg(pol) - 8);
    forall s: seq<Byte>, c: Byte | |s| == w > 0
      ensures k.step(Fold(k, s), s[0], c) == Fold(k, s[1..] + [c])
    {
      FoldIsHash(t, pol, Deg(pol) - 8, s);
      FoldIsHash(t, pol, Deg(pol) - 8, s[1..] + [c]);
      RollIsHash(t, pol, s, c);
    }
  }

  // The checksum as a function of the bytes alone, for a polynomial already known to suit.
  ghost function HashOf(pol: RabinPol): seq<Byte> -> Word {
    RabinPolSuits(pol);
    (s: seq<Byte>) => Hash(pol, s)
  }

  lemma {:induction false} KernelSums(t: Tables, pol: RabinPol, data: seq<Byte>, w: nat) returns (sums: seq<Word>)
    requires 0 < w <= |data| && TablesOf(t, pol, w)
    ensures Suitable(pol) && sums == Checksums(HashOf(pol), data, w)
    ensures Traced(RabinKernel(t, pol, Deg(pol) - 8), data, w, sums)
  {
    hide Suitable, TablesOf, Mod, Rolls, Hash, Push, RollOn, Reduce;
    RabinPolSuits(pol);
    sums := Checksums(HashOf(pol), data, w);
    KernelRolls(t, pol, w);
    forall i | 0 <= i < |sums| ensures sums[i] == Acc(RabinKernel(t, pol, Deg(pol) - 8), data, w, i) {
      FoldIsHash(t, pol, Deg(pol) - 8, data[i..i + w]);
    }
  }

  // ----- the digest

  // Tables built so far, by polynomial and window size.
  class TableCache {
    var entries: map<(RabinPol, nat), Tables>

    // A cached entry is what BuildTables makes of its key.
    ghost predicate Valid()
      reads this
    {
      forall key :: key in entries ==> TablesOf(entries[key], key.0, key.1)
    }

    constructor ()
      ensures Valid()
    {
      entries := map[];
    }

    method TablesFor(pol: RabinPol, windowsize: nat) returns (t: Tables)
      requires Valid()
      modifies this
      ensures Valid() && TablesOf(t, pol, windowsize)
    {
      hide TablesOf, Suitable;
      var idx := (pol, windowsize);
      if idx in entries { return entries[idx]; }
      RabinPolSuits(pol);
      t := BuildTables(pol, windowsize);
      entries := entries[idx := t];
    }
  }

  class RabinKarp64 {
    const pol: RabinPol
    const polShift: nat
    const cache: TableCache
    var tables: Tables
    var value: Word
    var window: array<Byte>
    var oldest: nat

    // The bytes of the window, oldest first.
    ghost function Contents(): seq<Byte>
      requires oldest <= window.Length
      reads this, window
    {
      Window.Rotation(window[..], oldest)
    }

    ghost predicate Valid()
      reads this, window, cache
    {
      && Suitable(pol) && polShift == Deg(pol) - 8 && cache.Valid()
      && oldest <= window.Length && (0 < window.Length ==> oldest < window.Length)
      && TablesOf(tables, pol, window.Length)
      && value == Hash(pol, Contents())
    }

    constructor NewFromPol(p: RabinPol, cache: TableCache)
      requires cache.Valid()
      modifies cache
      ensures Valid() && fresh(window) && pol == p && this.cache == cache && Contents() == []
    {
      hide TablesOf, Suitable, Mod;
      RabinPolSuits(p);
      NothingLeft(p);
      var w := new Byte[0];
      var t := cache.TablesFor(p, 0);
      pol, polShift, this.cache := p, Deg(p) - 8, cache;
      tables, value, oldest := t, 0, 0;
      window := w;
    }

    method Reset()
      requires Valid()
      modifies this, cache
      ensures Valid() && fresh(window) && Contents() == []
    {
      hide TablesOf, Suitable, Mod;
      NothingLeft(pol);
      value := 0;
      window := new Byte[0];
      oldest := 0;
      tables := cache.TablesFor(pol, window.Length);
    }

    method Write(data: seq<Byte>)
      requires Valid()
      modifies this, window, cache
      ensures Valid() && (window == old(window) || fresh(window))
      ensures Contents() == old(Contents()) + data
    {
      hide TablesOf, Suitable, Mod, Push;
      if |data| == 0 { return; }
      if oldest != 0 {
        Window.MoveLeft(window, oldest);
        oldest := 0;
      }
      assert window[..] == old(Contents());
      window := Window.Append(window, data);
      value := Fingerprint(window);
      assert window[..] == Contents();
      tables := cache.TablesFor(pol, window.Length);
    }

    // The Horner loop over a whole window.
    method Fingerprint(w: array<Byte>) returns (v: Word)
      requires Suitable(pol)
      ensures v == Hash(pol, w[..])
    {
      hide Suitable, Mod, Push;
      v := 0;
      NothingLeft(pol);
      for i := 0 to w.Length
        invariant v == Mod(Message(w[..i]), pol)
      {
        AbsorbByte(Message(w[..i]), w[i], pol);
        MessageSnoc(w[..i], w[i]);
        assert w[..i + 1] == w[..i] + [w[i]];
        v := Reduce(Push(v, w[i]), pol);
      }
      assert w[..w.Length] == w[..];
    }

    method Sum64() returns (v: Word)
      requires Valid()
      ensures v == Hash(pol, Contents())
      ensures IsDivMod(Message(Contents()), pol, Div(Message(Contents()), pol), v)
    {
      DivModExact(Message(Contents()), pol);
      v := value;
    }

    method Roll(c: Byte)
      requires Valid() && window.Length > 0
      modifies this, window
      ensures Valid() && window == old(window) && window.Length == old(window.Length)
      ensures Contents() == old(Contents())[1..] + [c]
    {
      hide TablesOf, Suitable, Hash, RollOn;
      RollIsHash(tables, pol, Contents(), c);
      Window.Slide(window[..], oldest, c);
      var leave := window[oldest];
      window[oldest] := c;
      oldest := oldest + 1;
      if oldest >= window.Length {
        oldest := 0;
      }
      value := RollOn(tables, polShift, value, leave, c);
    }

    method BatchRoll(dst: array<Word>, data: seq<Byte>, w: int)
      requires Valid() && (0 < w <= |data| ==> dst.Length == |data| - w + 1)
      modifies dst, cache
      ensures cache.Valid()
      ensures 0 < w <= |data| ==> dst[..] == Checksums(HashOf(pol), data, w)
      ensures forall i :: 0 < w <= |data| && 0 <= i <= |data| - w ==> dst[i] == Hash(pol, data[i..i + w])
    {
      hide TablesOf, Suitable, Mod, SumsOf, Rolls;
      if w <= 0 || |data| < w { return; }
      var t := cache.TablesFor(pol, w);
      ghost var sums := KernelSums(t, pol, data, w);
      Lanes.BatchRoll(RabinKernel(t, pol, polShift), dst, data, w, sums);
    }

    method BatchBoundaries(a: array<Int32>, b: array<Int32>, data: seq<Byte>, w: int, mask: Word)
      returns (na: nat, nb: nat)
      requires Valid() && (0 < w <= |data| ==> Buffers(a, b, |data| - w + 1))
      modifies a, b, cache
      ensures cache.Valid()
      ensures na <= a.Length && nb <= b.Length
      ensures a[..na] + b[..nb] ==
        if 0 < w <= |data| then Hits(Checksums(HashOf(pol), data, w), mask, 0, |data| - w + 1) else []
    {
      hide TablesOf, Suitable, Mod, Hits, SumsOf, Rolls;
      if w <= 0 || |data| < w { return 0, 0; }
      var t := cache.TablesFor(pol, w);
      ghost var sums := KernelSums(t, pol, data, w);
      na, nb := Lanes.BatchBoundaries(RabinKernel(t, pol, polShift), a, b, data, w, mask, sums);
    }
  }
}
