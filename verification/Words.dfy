/** Machine words as bounded naturals, and the bit operations the hashes use on them. */
module Words {
  const TWO64: nat := 0x1_0000_0000_0000_0000

  type Word = x: nat | x < 0x1_0000_0000_0000_0000
  type Byte = x: nat | x < 256

  function Bit(x: nat, k: nat): bool {
    if k == 0 then x % 2 == 1 else Bit(x / 2, k - 1)
  }

  function Shl(x: nat, n: nat): (r: nat)
    ensures r >= x
  {
    if n == 0 then x else 2 * Shl(x, n - 1)
  }

  function Shr(x: nat, n: nat): nat {
    if n == 0 then x else Shr(x / 2, n - 1)
  }

  function Pow2(n: nat): nat {
    Shl(1, n)
  }

  function Xor(x: nat, y: nat): nat
    decreases x + y
  {
    if x == 0 && y == 0 then 0 else (x + y) % 2 + 2 * Xor(x / 2, y / 2)
  }

  function And(x: nat, y: nat): nat {
    if x == 0 || y == 0 then 0 else (x % 2) * (y % 2) + 2 * And(x / 2, y / 2)
  }

  function Or(x: nat, y: nat): nat
    decreases x + y
  {
    if x == 0 && y == 0 then 0
    else (if x % 2 == 1 || y % 2 == 1 then 1 else 0) + 2 * Or(x / 2, y / 2)
  }

  // ----- bits determine the number

  lemma {:induction false} BitZero(k: nat)
    ensures !Bit(0, k)
  {
    if k > 0 { BitZero(k - 1); }
  }

  lemma {:induction false} SameBits(x: nat, y: nat)
    requires forall k: nat :: Bit(x, k) == Bit(y, k)
    ensures x == y
    decreases x + y
  {
    assert Bit(x, 0) == Bit(y, 0);
    if x + y > 0 {
      forall k: nat ensures Bit(x / 2, k) == Bit(y / 2, k) {
        assert Bit(x, k + 1) == Bit(y, k + 1);
      }
      SameBits(x / 2, y / 2);
    }
  }

  lemma {:induction false} BitXor(x: nat, y: nat, k: nat)
    ensures Bit(Xor(x, y), k) == (Bit(x, k) != Bit(y, k))
    decreases k
  {
    if x == 0 && y == 0 {
      BitZero(k);
    } else if k > 0 {
      assert Xor(x, y) / 2 == Xor(x / 2, y / 2);
      BitXor(x / 2, y / 2, k - 1);
    }
  }

  lemma {:induction false} BitAnd(x: nat, y: nat, k: nat)
    ensures Bit(And(x, y), k) == (Bit(x, k) && Bit(y, k))
    decreases k
  {
    BitZero(k);
    if x != 0 && y != 0 && k > 0 {
      assert And(x, y) / 2 == And(x / 2, y / 2);
      BitAnd(x / 2, y / 2, k - 1);
    }
  }

  lemma {:induction false} BitOr(x: nat, y: nat, k: nat)
    ensures Bit(Or(x, y), k) == (Bit(x, k) || Bit(y, k))
    decreases k
  {
    if x == 0 && y == 0 {
      BitZero(k);
    } else if k > 0 {
      assert Or(x, y) / 2 == Or(x / 2, y / 2);
      BitOr(x / 2, y / 2, k - 1);
    }
  }

  lemma {:induction false} BitShl(x: nat, n: nat, k: nat)
    ensures Bit(Shl(x, n), k) == (k >= n && Bit(x, k - n))
  {
    if n > 0 && k > 0 {
      assert Shl(x, n) / 2 == Shl(x, n - 1);
      BitShl(x, n - 1, k - 1);
    }
  }

  lemma {:induction false} BitShr(x: nat, n: nat, k: nat)
    ensures Bit(Shr(x, n), k) == Bit(x, k + n)
    decreases n
  {
    if n > 0 { BitShr(x / 2, n - 1, k); }
  }

  lemma {:induction false} BitPow2(n: nat, k: nat)
    ensures Bit(Pow2(n), k) == (k == n)
  {
    BitShl(1, n, k);
    if k > n { BitZero(k - n - 1); }
  }

  lemma {:induction false} ShlAdd(x: nat, m: nat, n: nat)
    ensures Shl(Shl(x, m), n) == Shl(x, m + n)
  {
    if n > 0 { ShlAdd(x, m, n - 1); }
  }

  // Shifting by 64 multiplies by 2^64, so nothing of the shifted word is left below 2^64.
  lemma {:induction false} ShlWord(x: nat)
    ensures Shl(x, 64) == TWO64 * x
  {
    ShlByte(x);
    forall m: nat ensures Shl(x, m + 8) == 256 * Shl(x, m) {
      ShlAdd(x, m, 8);
      ShlByte(Shl(x, m));
    }
    assert Shl(x, 8 + 8) == 256 * Shl(x, 8);
    assert Shl(x, 16 + 8) == 256 * Shl(x, 16);
    assert Shl(x, 24 + 8) == 256 * Shl(x, 24);
    assert Shl(x, 32 + 8) == 256 * Shl(x, 32);
    assert Shl(x, 40 + 8) == 256 * Shl(x, 40);
    assert Shl(x, 48 + 8) == 256 * Shl(x, 48);
    assert Shl(x, 56 + 8) == 256 * Shl(x, 56);
  }

  lemma {:induction false} ShlByte(x: nat)
    ensures Shl(x, 8) == 256 * x
  {
    assert Shl(x, 1) == 2 * x;
    assert Shl(x, 3) == 8 * x;
    assert Shl(x, 5) == 32 * x;
    assert Shl(x, 7) == 128 * x;
  }

  // A number is below 2^n exactly when it has no bit at or above n.
  lemma {:induction false} NoHighBit(x: nat, n: nat, k: nat)
    requires x < Pow2(n) && n <= k
    ensures !Bit(x, k)
    decreases n
  {
    if n == 0 { BitZero(k); } else { NoHighBit(x / 2, n - 1, k - 1); }
  }

  lemma {:induction false} BoundByBits(x: nat, n: nat)
    requires forall k: nat :: n <= k ==> !Bit(x, k)
    ensures x < Pow2(n)
    decreases n
  {
    if n == 0 {
      forall k: nat ensures Bit(x, k) == Bit(0, k) { BitZero(k); }
      SameBits(x, 0);
    } else {
      forall k: nat | n - 1 <= k ensures !Bit(x / 2, k) { assert !Bit(x, k + 1); }
      BoundByBits(x / 2, n - 1);
    }
  }

  // ----- XOR is the addition of a vector space over GF(2)

  lemma {:induction false} XorGroup(x: nat, y: nat, z: nat)
    ensures Xor(x, y) == Xor(y, x)
    ensures Xor(Xor(x, y), z) == Xor(x, Xor(y, z))
    ensures Xor(x, x) == 0 && Xor(x, 0) == x && Xor(0, x) == x
  {
    forall k: nat
      ensures Bit(Xor(x, y), k) == Bit(Xor(y, x), k)
      ensures Bit(Xor(Xor(x, y), z), k) == Bit(Xor(x, Xor(y, z)), k)
      ensures Bit(Xor(x, x), k) == Bit(0, k)
      ensures Bit(Xor(x, 0), k) == Bit(x, k)
      ensures Bit(Xor(0, x), k) == Bit(x, k)
    {
      BitXor(x, y, k); BitXor(y, x, k); BitXor(y, z, k); BitXor(Xor(x, y), z, k); BitXor(x, Xor(y, z), k);
      BitXor(x, x, k); BitXor(x, 0, k); BitXor(0, x, k); BitZero(k);
    }
    SameBits(Xor(x, y), Xor(y, x));
    SameBits(Xor(Xor(x, y), z), Xor(x, Xor(y, z)));
    SameBits(Xor(x, x), 0);
    SameBits(Xor(x, 0), x);
    SameBits(Xor(0, x), x);
  }

  // ----- the bit scans of math/bits

  function TrailingZeros(x: nat): nat
    requires x > 0
  {
    if x % 2 == 1 then 0 else 1 + TrailingZeros(x / 2)
  }

  lemma {:induction false} LowestBit(x: nat, k: nat)
    requires x > 0 && k <= TrailingZeros(x)
    ensures Bit(x, k) == (k == TrailingZeros(x))
    decreases x
  {
    if x % 2 == 0 && k > 0 { LowestBit(x / 2, k - 1); }
  }

  lemma {:induction false} ClearLowest(x: nat, k: nat)
    requires x > 0
    ensures Bit(And(x, x - 1), k) == (Bit(x, k) && k != TrailingZeros(x))
    decreases x
  {
    BitAnd(x, x - 1, k);
    if x % 2 == 1 {
      if k > 0 { assert (x - 1) / 2 == x / 2; }
    } else {
      assert (x - 1) / 2 == x / 2 - 1;
      if k > 0 {
        ClearLowest(x / 2, k - 1);
        BitAnd(x / 2, x / 2 - 1, k - 1);
      }
    }
  }

  lemma {:induction false} AndBound(x: nat, y: nat)
    ensures And(x, y) <= x && And(x, y) <= y
  {
    if x != 0 && y != 0 { AndBound(x / 2, y / 2); }
  }

  lemma {:induction false} FitsWord(x: nat)
    requires forall k: nat :: 64 <= k ==> !Bit(x, k)
    ensures x < TWO64
  {
    BoundByBits(x, 64);
    ShlWord(1);
  }

  lemma {:induction false} BitOnes(n: nat, k: nat)
    ensures Bit(Pow2(n) - 1, k) == (k < n)
  {
    if n == 0 {
      BitZero(k);
    } else if k > 0 {
      hide Bit;
      var m := Pow2(n - 1);
      assert Pow2(n) == 2 * m;
      BitOnes(n - 1, k - 1);
      BitHalf(2 * m - 1, k);
    } else {
      assert Pow2(n) == 2 * Pow2(n - 1);
    }
  }

  lemma {:induction false} BitHalf(x: nat, k: nat)
    requires k > 0
    ensures Bit(x, k) == Bit(x / 2, k - 1)
  {
  }

  lemma {:induction false} BitLow32(k: nat)
    ensures Bit(0xffff_ffff, k) == (k < 32)
  {
    ShlByte(1);
    ShlAdd(1, 8, 8); ShlByte(Shl(1, 8));
    ShlAdd(1, 16, 8); ShlByte(Shl(1, 16));
    ShlAdd(1, 24, 8); ShlByte(Shl(1, 24));
    BitOnes(32, k);
  }

  // The top bit of an (n + 1)-bit number, taken off.
  lemma {:induction false} TopBit(x: nat, n: nat, k: nat)
    requires x < Pow2(n + 1)
    ensures Bit(x, n) == (Pow2(n) <= x)
    ensures Pow2(n) <= x ==> Bit(x, k) == (k == n || Bit(x - Pow2(n), k))
    decreases n
  {
    if n == 0 {
      if k > 0 { BitZero(k - 1); }
    } else {
      assert (x - Pow2(n)) / 2 == x / 2 - Pow2(n - 1);
      TopBit(x / 2, n - 1, if k == 0 then 0 else k - 1);
    }
  }

  function Xor64(x: Word, y: Word): Word {
    XorWord(x, y);
    Xor(x, y)
  }

  lemma {:induction false} XorWord(x: nat, y: nat)
    requires x < TWO64 && y < TWO64
    ensures Xor(x, y) < TWO64
  {
    ShlWord(1);
    forall k: nat | 64 <= k ensures !Bit(Xor(x, y), k) {
      BitXor(x, y, k);
      NoHighBit(x, 64, k);
      NoHighBit(y, 64, k);
    }
    FitsWord(Xor(x, y));
  }

  lemma {:induction false} WordPowers()
    ensures Pow2(64) == 0x1_0000_0000_0000_0000 && Pow2(63) == 0x8000_0000_0000_0000
  {
    ShlWord(1);
  }

  // Bits below n and bits from n on do not meet: their union is their sum.
  lemma {:induction false} OrLow(x: nat, y: nat, n: nat)
    requires y < Pow2(n)
    ensures Or(Shl(x, n), y) == Shl(x, n) + y
    decreases n
  {
    if n == 0 {
      OrZero(x);
    } else {
      OrLow(x, y / 2, n - 1);
      assert Shl(x, n) / 2 == Shl(x, n - 1);
    }
  }

  lemma {:induction false} OrZero(x: nat)
    ensures Or(x, 0) == x
  {
    if x > 0 { OrZero(x / 2); }
  }

  // ----- truncation to a word

  function LowBits(x: nat, n: nat): nat {
    if n == 0 then 0 else x % 2 + 2 * LowBits(x / 2, n - 1)
  }

  lemma {:induction false} BitLowBits(x: nat, n: nat, k: nat)
    ensures Bit(LowBits(x, n), k) == (k < n && Bit(x, k))
    decreases n
  {
    if n == 0 { BitZero(k); } else if k > 0 { BitLowBits(x / 2, n - 1, k - 1); }
  }

  lemma {:induction false} LowHigh(x: nat, n: nat)
    ensures x == LowBits(x, n) + Shl(Shr(x, n), n) && LowBits(x, n) < Pow2(n)
    decreases n
  {
    if n > 0 { LowHigh(x / 2, n - 1); }
  }

  // The low 64 bits, as 64-bit arithmetic keeps them.
  function Trunc(x: nat): Word {
    x % 0x1_0000_0000_0000_0000
  }

  lemma {:induction false} TruncLow(x: nat, n: nat)
    requires n == 64
    ensures Trunc(x) == LowBits(x, n)
  {
    hide LowBits, Shl, Shr;
    LowHigh(x, n);
    ShlWord(Shr(x, n));
    WordPowers();
  }

  lemma {:induction false} BitTrunc(x: nat, k: nat)
    ensures Bit(Trunc(x), k) == (k < 64 && Bit(x, k))
  {
    hide Trunc;
    TruncLow(x, 64);
    BitLowBits(x, 64, k);
  }

  lemma {:induction false} TruncXor(x: nat, y: nat)
    ensures Xor(Trunc(x), Trunc(y)) == Trunc(Xor(x, y))
  {
    hide Trunc, Xor;
    var l, r := Xor(Trunc(x), Trunc(y)), Trunc(Xor(x, y));
    forall k: nat ensures Bit(l, k) == Bit(r, k) {
      BitXor(Trunc(x), Trunc(y), k);
      BitTrunc(x, k);
      BitTrunc(y, k);
      BitTrunc(Xor(x, y), k);
      BitXor(x, y, k);
    }
    SameBits(l, r);
  }

  // Adding a bit that is not there is setting it.
  lemma {:induction false} OrNewBit(x: nat, n: nat)
    requires !Bit(x, n)
    ensures Or(x, Pow2(n)) == Xor(x, Pow2(n))
  {
    hide Or, Xor, Pow2;
    var l, r := Or(x, Pow2(n)), Xor(x, Pow2(n));
    forall k: nat ensures Bit(l, k) == Bit(r, k) {
      BitOr(x, Pow2(n), k);
      BitXor(x, Pow2(n), k);
      BitPow2(n, k);
    }
    SameBits(l, r);
  }

  // The low n + 1 bits are the low n bits and bit n.
  lemma {:induction false} LowBitsNext(x: nat, n: nat)
    ensures LowBits(x, n + 1) == Xor(LowBits(x, n), if Bit(x, n) then Pow2(n) else 0)
  {
    hide LowBits, Xor, Pow2;
    var l, top := LowBits(x, n + 1), if Bit(x, n) then Pow2(n) else 0;
    var r := Xor(LowBits(x, n), top);
    forall k: nat ensures Bit(l, k) == Bit(r, k) {
      BitLowBits(x, n + 1, k);
      BitXor(LowBits(x, n), top, k);
      BitLowBits(x, n, k);
      BitPow2(n, k);
      BitZero(k);
    }
    SameBits(l, r);
  }
}
