/** The hashes a roller or chunker can be built on, behind one face. */
module Hashing {
  import opened Words
  import opened Lanes
  import Adler
  import Buzhash
  import Gearhash
  import RabinKarp

  // Which checksum a hash computes, apart from the state of any digest.
  datatype Scheme =
    | BuzScheme(bytehash: Buzhash.Table)
    | GearScheme(gear: Gearhash.Table)
    | RabinScheme(pol: RabinKarp.RabinPol)
    | AdlerScheme
  {
    ghost function Of(s: seq<Byte>): Word {
      match this
      case BuzScheme(t) => Buzhash.Hash(t, s)
      case GearScheme(t) => Gearhash.Hash(t, s)
      case RabinScheme(pol) => RabinKarp.HashOf(pol)(s)
      case AdlerScheme => Adler.Hash(s)
    }

    ghost function Sums(data: seq<Byte>, w: nat): seq<Word>
      requires 0 < w <= |data|
    {
      Checksums((s: seq<Byte>) => Of(s), data, w)
    }

    // Adler-32 keeps the length of its window in 32 bits, which has to leave its residue for rolling to be right;
    // the others roll windows of any length.
    ghost predicate Takes(w: nat) {
      AdlerScheme? ==> Adler.Counts(w)
    }

    lemma {:induction false} TakesShort(w: nat)
      requires w < 0x1_0000_0000
      ensures Takes(w)
    {
      Adler.ShortCounts(w);
    }

    lemma {:induction false} SumsAre(h: seq<Byte> -> Word, data: seq<Byte>, w: nat)
      requires 0 < w <= |data| && forall s :: h(s) == Of(s)
      ensures Sums(data, w) == Checksums(h, data, w)
    {
    }
  }

  method New(scheme: Scheme) returns (h: Hash)
    ensures h.Valid() && fresh(h.Repr()) && h.Kind() == scheme && h.Contents() == []
  {
    if scheme.BuzScheme? {
      var d := new Buzhash.Buzhash64(scheme.bytehash);
      h := Buz(d);
    } else if scheme.GearScheme? {
      var d := new Gearhash.GearHash64(scheme.gear);
      h := Gear(d);
    } else if scheme.RabinScheme? {
      var cache := new RabinKarp.TableCache();
      var d := new RabinKarp.RabinKarp64.NewFromPol(scheme.pol, cache);
      h := Rabin(d);
    } else {
      var d := new Adler.Adler32();
      h := AdlerSum(d);
    }
  }

  // The checksum of bytes written at once to a digest that starts afresh.
  method Checksum(scheme: Scheme, bytes: seq<Byte>) returns (v: Word)
    ensures v == scheme.Of(bytes)
  {
    var digest := New(scheme);
    digest.Write(bytes);
    assert digest.Contents() == bytes;
    v := digest.Sum();
  }

  datatype Hash =
    | Buz(buz: Buzhash.Buzhash64)
    | Gear(gear: Gearhash.GearHash64)
    | Rabin(rabin: RabinKarp.RabinKarp64)
    | AdlerSum(adler: Adler.Adler32)
  {
    function Kind(): Scheme {
      match this
      case Buz(d) => BuzScheme(d.bytehash)
      case Gear(d) => GearScheme(d.gear)
      case Rabin(d) => RabinScheme(d.pol)
      case AdlerSum(_) => AdlerScheme
    }

    ghost function Digest(): object {
      match this
      case Buz(d) => d
      case Gear(d) => d
      case Rabin(d) => d
      case AdlerSum(d) => d
    }

    ghost function Repr(): set<object>
      reads Digest()
      ensures Digest() in Repr()
    {
      match this
      case Buz(d) => {d, d.window}
      case Gear(d) => {d, d.window}
      case Rabin(d) => {d, d.window, d.cache}
      case AdlerSum(d) => {d, d.window}
    }

    ghost predicate Valid()
      reads Digest(), Repr()
    {
      match this
      case Buz(d) => d.Valid()
      case Gear(d) => d.Valid()
      case Rabin(d) => d.Valid()
      case AdlerSum(d) => d.Valid()
    }

    ghost function Contents(): seq<Byte>
      requires Valid()
      reads Digest(), Repr()
    {
      match this
      case Buz(d) => d.Contents()
      case Gear(d) => d.Contents()
      case Rabin(d) => d.Contents()
      case AdlerSum(d) => d.Contents()
    }

    method Reset()
      requires Valid()
      modifies Repr()
      ensures Valid() && fresh(Repr() - old(Repr())) && Contents() == []
    {
      match this
      case Buz(d) => d.Reset();
      case Gear(d) => d.Reset();
      case Rabin(d) => d.Reset();
      case AdlerSum(d) => d.Reset();
    }

    method Write(data: seq<Byte>)
      requires Valid()
      modifies Repr()
      ensures Valid() && fresh(Repr() - old(Repr())) && Contents() == old(Contents()) + data
    {
      match this
      case Buz(d) => d.Write(data);
      case Gear(d) => d.Write(data);
      case Rabin(d) => d.Write(data);
      case AdlerSum(d) => d.Write(data);
    }

    method Roll(c: Byte)
      requires Valid() && Contents() != [] && Kind().Takes(|Contents()|)
      modifies Repr()
      ensures Valid() && Repr() == old(Repr()) && Contents() == old(Contents())[1..] + [c]
    {
      match this
      case Buz(d) => d.Roll(c);
      case Gear(d) => d.Roll(c);
      case Rabin(d) => d.Roll(c);
      case AdlerSum(d) => d.Roll(c);
    }

    method Sum() returns (v: Word)
      requires Valid()
      ensures v == Kind().Of(Contents())
      ensures match this
        case Buz(d) => v == Buzhash.Hash(d.bytehash, Contents())
        case Gear(d) => v == Gearhash.Hash(d.gear, Contents())
        case Rabin(d) => v == RabinKarp.HashOf(d.pol)(Contents())
        case AdlerSum(_) => v == Adler.Hash(Contents())
    {
      match this
      case Buz(d) => v := d.Sum64();
      case Gear(d) => v := d.Sum64();
      case Rabin(d) => v := d.Sum64();
      case AdlerSum(d) => v := d.Sum64();
    }

    method BatchRoll(dst: array<Word>, data: seq<Byte>, w: nat)
      requires Valid() && dst !in Repr()
      requires 0 < w <= |data| && dst.Length == |data| - w + 1 && Kind().Takes(w)
      modifies dst, Repr()
      ensures Valid() && fresh(Repr() - old(Repr())) && Contents() == old(Contents())
      ensures dst[..] == Kind().Sums(data, w)
      ensures forall i :: 0 <= i <= |data| - w ==> dst[i] == Kind().Of(data[i..i + w])
    {
      match this
      case Buz(d) =>
        d.BatchRoll(dst, data, w);
        Kind().SumsAre(Buzhash.HashOf(d.bytehash), data, w);
      case Gear(d) =>
        d.BatchRoll(dst, data, w);
        Kind().SumsAre(Gearhash.HashOf(d.gear), data, w);
      case Rabin(d) =>
        d.BatchRoll(dst, data, w);
        Kind().SumsAre(RabinKarp.HashOf(d.pol), data, w);
      case AdlerSum(d) =>
        d.BatchRoll(dst, data, w);
        Kind().SumsAre(Adler.HashOf(), data, w);
    }

    method BatchBoundaries(a: array<Int32>, b: array<Int32>, data: seq<Byte>, w: nat, mask: Word)
      returns (na: nat, nb: nat)
      requires Valid() && a !in Repr() && b !in Repr()
      requires 0 < w <= |data| && Buffers(a, b, |data| - w + 1) && Kind().Takes(w)
      modifies a, b, Repr()
      ensures Valid() && fresh(Repr() - old(Repr())) && Contents() == old(Contents())
      ensures na <= a.Length && nb <= b.Length
      ensures a[..na] + b[..nb] == Hits(Kind().Sums(data, w), mask, 0, |data| - w + 1)
    {
      hide Hits, Buffers;
      match this
      case Buz(d) =>
        na, nb := d.BatchBoundaries(a, b, data, w, mask);
        Kind().SumsAre(Buzhash.HashOf(d.bytehash), data, w);
      case Gear(d) =>
        na, nb := d.BatchBoundaries(a, b, data, w, mask);
        Kind().SumsAre(Gearhash.HashOf(d.gear), data, w);
      case Rabin(d) =>
        na, nb := d.BatchBoundaries(a, b, data, w, mask);
        Kind().SumsAre(RabinKarp.HashOf(d.pol), data, w);
      case AdlerSum(d) =>
        na, nb := d.BatchBoundaries(a, b, data, w, mask);
        Kind().SumsAre(Adler.HashOf(), data, w);
    }
  }
}
