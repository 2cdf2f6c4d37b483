/** Why window lengths that are multiples of the word size collapse on constant runs. */
module BuzhashRuns {
  import opened Words
  import opened Buzhash

  function Run(b: Byte, n: nat): seq<Byte> {
    seq(n, _ => b)
  }

  // x has an odd number of one bits.
  predicate OddOnes(x: nat) {
    x > 0 && (x % 2 == 1) != OddOnes(x / 2)
  }

  lemma {:induction false} HashConcat(t: Table, x: seq<Byte>, y: seq<Byte>)
    ensures Hash(t, x + y) == Xor64(RotL(Hash(t, x), |y|), Hash(t, y))
    decreases |y|
  {
    var h := Hash(t, x);
    if y == [] {
      assert x + y == x;
      XorGroup(h, 0, 0);
    } else {
      var init, c := y[..|y| - 1], y[|y| - 1];
      assert y == init + [c] && x + y == (x + init) + [c];
      HashConcat(t, x, init);
      HashSnoc(t, x + init, c);
      HashSnoc(t, init, c);
      hide Rot1;
      Rot1Xor(RotL(h, |init|), Hash(t, init));
      XorGroup(Rot1(RotL(h, |init|)), Rot1(Hash(t, init)), t[c]);
    }
  }

  // Over a full turn the run's hash is unchanged by rotation.
  lemma {:induction false} TurnInvariant(t: Table, b: Byte)
    ensures Rot1(Hash(t, Run(b, 64))) == Hash(t, Run(b, 64))
  {
    hide Rot1;
    var run := Run(b, 64);
    var h, g := Hash(t, run), t[b];
    assert run + [b] == [b] + run;
    HashSnoc(t, run, b);
    FullTurn(g);
    assert ([b] + run)[1..] == run;
    assert Xor(Rot1(h), g) == Xor(g, h);
    XorGroup(g, h, g);
    XorGroup(Rot1(h), g, g);
    XorGroup(h, g, g);
    XorGroup(g, g, g);
  }

  // A word that rotation leaves alone is all zeros or all ones.
  lemma {:induction false} AllBitsEqual(x: Word, k: nat)
    requires Rot1(x) == x && k < 64
    ensures Bit(x, k) == Bit(x, 63)
    decreases k
  {
    BitRot1(x, k);
    if k > 0 { AllBitsEqual(x, k - 1); }
  }

  lemma {:induction false} Uniform(x: Word)
    requires Rot1(x) == x
    ensures x == if Bit(x, 63) then TWO64 - 1 else 0
  {
    ShlWord(1);
    var u: nat := if Bit(x, 63) then TWO64 - 1 else 0;
    forall k: nat ensures Bit(x, k) == Bit(u, k) {
      BitOnes(64, k);
      BitZero(k);
      if k < 64 { AllBitsEqual(x, k); } else { NoHighBit(x, 64, k); }
    }
    SameBits(x, u);
  }

  lemma {:induction false} ShrHalf(x: nat, n: nat)
    ensures Shr(x, n) / 2 == Shr(x, n + 1) && (Shr(x, n) % 2 == 1) == Bit(x, n)
  {
    if n > 0 { ShrHalf(x / 2, n - 1); }
  }

  lemma {:induction false} ShrWord(x: Word, n: nat)
    requires n == 64
    ensures Shr(x, n) == 0
  {
    ShlWord(1);
    forall k: nat ensures Bit(Shr(x, n), k) == Bit(0, k) {
      BitShr(x, n, k);
      BitZero(k);
      NoHighBit(x, 64, k + n);
    }
    SameBits(Shr(x, n), 0);
  }

  // The top bit of a run's hash adds up the top n bits of the byte's table word.
  lemma {:induction false} RunTopBit(t: Table, b: Byte, n: nat)
    requires n <= 64
    ensures Bit(Hash(t, Run(b, n)), 63) == OddOnes(Shr(t[b], 64 - n))
  {
    if n == 0 {
      ShrWord(t[b], 64 - n);
      BitZero(63);
    } else {
      assert Run(b, n)[1..] == Run(b, n - 1);
      RunTopBit(t, b, n - 1);
      BitXor(RotL(t[b], n - 1), Hash(t, Run(b, n - 1)), 63);
      BitRotL(t[b], n - 1, 63);
      ShrHalf(t[b], 64 - n);
    }
  }

  lemma {:induction false} TurnHash(t: Table, b: Byte, turn: seq<Byte>)
    requires turn == Run(b, 64)
    ensures Hash(t, turn) == if OddOnes(t[b]) then TWO64 - 1 else 0
  {
    hide Hash, Rot1, Bit, OddOnes;
    TurnInvariant(t, b);
    Uniform(Hash(t, turn));
    RunTopBit(t, b, 64);
  }

  lemma {:induction false} EmptyHash(t: Table, s: seq<Byte>)
    requires s == []
    ensures Hash(t, s) == 0
  {
  }

  // On a run of one byte, a window of m words' length hashes to zero, or to all ones
  // exactly when m is odd and the byte's table word has an odd number of ones.
  lemma {:induction false} RunCollapse(t: Table, b: Byte, m: nat)
    ensures Hash(t, Run(b, 64 * m)) == if m % 2 == 1 && OddOnes(t[b]) then TWO64 - 1 else 0
  {
    hide Hash, RotL, Xor, OddOnes;
    if m == 0 {
      EmptyHash(t, Run(b, 0));
    } else {
      RunCollapse(t, b, m - 1);
      var before, turn := Run(b, 64 * (m - 1)), Run(b, 64);
      assert Run(b, 64 * m) == before + turn;
      HashConcat(t, before, turn);
      FullTurn(Hash(t, before));
      TurnHash(t, b, turn);
      XorGroup(TWO64 - 1, 0, 0);
      XorGroup(0, 0, 0);
    }
  }
}
