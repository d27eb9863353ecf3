/** The per-table filter: bits set for every key, so that a clear bit proves a key absent. */
module Bloom {
  import opened Keys
  import opened Codec
  import opened Octets

  /** A bit of a byte. */
  function Mask(j: nat): bv8
    requires j < 8
  {
    match j
    case 0 => 0x01
    case 1 => 0x02
    case 2 => 0x04
    case 3 => 0x08
    case 4 => 0x10
    case 5 => 0x20
    case 6 => 0x40
    case 7 => 0x80
  }

  predicate Meets(y: bv8, mask: bv8) {
    y & mask != 0
  }

  function Join(y: bv8, mask: bv8): bv8 {
    y | mask
  }

  predicate HasBit(b: Byte, j: nat)
    requires j < 8
  {
    Meets(Bits(b), Mask(j))
  }

  function SetBit(b: Byte, j: nat): Byte
    requires j < 8
  {
    FromBits(Join(Bits(b), Mask(j)))
  }

  lemma MaskBits(y: bv8, i: nat, j: nat)
    requires i < 8 && j < 8
    ensures Meets(Join(y, Mask(j)), Mask(i)) <==> i == j || Meets(y, Mask(i))
  {
    MasksApart(i, j);
    Distribute(y, Mask(j), Mask(i));
  }

  lemma MasksApart(i: nat, j: nat)
    requires i < 8 && j < 8
    ensures if i == j then Mask(j) & Mask(i) == Mask(i) != 0 else Mask(j) & Mask(i) == 0
  {
  }

  lemma Distribute(y: bv8, a: bv8, b: bv8)
    ensures a & b == 0 ==> (y | a) & b == y & b
    ensures a & b == b && b != 0 ==> (y | a) & b != 0
  {
  }

  lemma SetBitHas(b: Byte, i: nat, j: nat)
    requires i < 8 && j < 8
    ensures HasBit(SetBit(b, j), i) <==> i == j || HasBit(b, i)
  {
    hide Mask, Bits, FromBits, Meets, Join;
    BitsOf(Join(Bits(b), Mask(j)));
    MaskBits(Bits(b), i, j);
  }

  /** Bit `x` of a bit array. */
  predicate BitAt(bits: Bytes, x: nat)
    requires x < 8 * |bits|
  {
    HasBit(bits[x / 8], x % 8)
  }

  function WithBit(bits: Bytes, x: nat): (r: Bytes)
    requires x < 8 * |bits|
    ensures |r| == |bits|
  {
    bits[x / 8 := SetBit(bits[x / 8], x % 8)]
  }

  lemma WithBitAt(bits: Bytes, x: nat, y: nat)
    requires x < 8 * |bits| && y < 8 * |bits|
    ensures BitAt(WithBit(bits, x), y) <==> x == y || BitAt(bits, y)
  {
    hide HasBit, SetBit;
    if x / 8 == y / 8 {
      SetBitHas(bits[x / 8], y % 8, x % 8);
      assert x == y <==> x % 8 == y % 8;
    }
  }

  /** The `i`-th probe of a key: double hashing in 64-bit arithmetic. */
  function Probe(h1: nat, h2: nat, i: nat, m: nat): (x: nat)
    requires m > 0
    ensures x < m
  {
    (h1 + i * h2) % TWO64 % m
  }

  /** The first `n` probes of a key. */
  ghost predicate Hits(h: (Key) -> (nat, nat), k: Key, n: nat, m: nat, x: nat)
    requires m > 0
  {
    exists i :: 0 <= i < n && Probe(h(k).0, h(k).1, i, m) == x
  }

  /** A key's probes are all set. */
  ghost predicate AllSet(bits: Bytes, h: (Key) -> (nat, nat), hashes: nat, k: Key)
    requires bits != []
  {
    forall i :: 0 <= i < hashes ==> BitAt(bits, Probe(h(k).0, h(k).1, i, 8 * |bits|))
  }

  /** What the filter says of a key; one without bits or hashes never rules a key out. */
  ghost predicate MayContain(bits: Bytes, h: (Key) -> (nat, nat), hashes: nat, k: Key) {
    bits == [] || hashes == 0 || AllSet(bits, h, hashes, k)
  }

  /** Every key of `keys[..n]` is in, and no bit is set that none of them set. */
  ghost predicate Covers(bits: Bytes, h: (Key) -> (nat, nat), hashes: nat, keys: seq<Key>, n: nat)
    requires n <= |keys| && bits != []
  {
    forall x :: 0 <= x < 8 * |bits| ==> (BitAt(bits, x) <==> SetBy(h, hashes, keys, n, 8 * |bits|, x))
  }

  ghost predicate SetBy(h: (Key) -> (nat, nat), hashes: nat, keys: seq<Key>, n: nat, m: nat, x: nat)
    requires n <= |keys| && m > 0
  {
    exists j :: 0 <= j < n && Hits(h, keys[j], hashes, m, x)
  }

  class BloomFilter {
    var bits: Bytes
    var hashes: nat
    const hash: (Key) -> (nat, nat)

    constructor (hash: (Key) -> (nat, nat))
      ensures bits == [] && hashes == 0 && this.hash == hash
    {
      bits, hashes, this.hash := [], 0, hash;
    }

    /** Sets the bits of every key; the sizes come from the wanted false-positive rate. */
    method Build(keys: seq<Key>, byteSize: nat, count: nat)
      requires byteSize > 0 && count > 0
      modifies this
      ensures keys == [] ==> bits == [] && hashes == 0
      ensures keys != [] ==> |bits| == byteSize && hashes == count && Covers(bits, hash, count, keys, |keys|)
    {
      hide BitAt, WithBit, Probe, HasBit;
      if keys == [] {
        bits, hashes := [], 0;
        return;
      }
      hashes := count;
      bits := seq(byteSize, _ => 0);
      NoBits(bits);
      var n := 0;
      while n < |keys|
        invariant n <= |keys| && |bits| == byteSize && hashes == count && Covers(bits, hash, count, keys, n)
      {
        SetKey(keys, n);
        n := n + 1;
      }
    }

    /** Sets the probes of one key. */
    method SetKey(keys: seq<Key>, n: nat)
      requires bits != [] && n < |keys| && Covers(bits, hash, hashes, keys, n)
      modifies this`bits
      ensures |bits| == |old(bits)| && Covers(bits, hash, hashes, keys, n + 1)
    {
      hide BitAt, WithBit, Probe, HasBit;
      ghost var before := bits;
      var (h1, h2) := hash(keys[n]);
      var m := 8 * |bits|;
      var i := 0;
      while i < hashes
        invariant i <= hashes && |bits| == |before|
        invariant forall x :: 0 <= x < m ==> (BitAt(bits, x) <==> BitAt(before, x) || Hits(hash, keys[n], i, m, x))
      {
        var at := Probe(h1, h2, i, m);
        forall x | 0 <= x < m
          ensures BitAt(WithBit(bits, at), x) <==> BitAt(before, x) || Hits(hash, keys[n], i + 1, m, x)
        {
          WithBitAt(bits, at, x);
          OneMoreHit(hash, keys[n], i, m, x);
        }
        bits := WithBit(bits, at);
        i := i + 1;
      }
      forall x | 0 <= x < m
        ensures SetBy(hash, hashes, keys, n + 1, m, x)
           <==> SetBy(hash, hashes, keys, n, m, x) || Hits(hash, keys[n], hashes, m, x)
      {
      }
    }

    /** Whether the table may hold a key. */
    method Query(k: Key) returns (r: bool)
      ensures r == MayContain(bits, hash, hashes, k)
    {
      hide BitAt, Probe;
      if bits == [] || hashes == 0 { return true; }
      var (h1, h2) := hash(k);
      var i := 0;
      while i < hashes
        invariant i <= hashes && forall j :: 0 <= j < i ==> BitAt(bits, Probe(h1, h2, j, 8 * |bits|))
      {
        if !BitAt(bits, Probe(h1, h2, i, 8 * |bits|)) { return false; }
        i := i + 1;
      }
      r := true;
    }
  }

  lemma OneMoreHit(h: (Key) -> (nat, nat), k: Key, n: nat, m: nat, x: nat)
    requires m > 0
    ensures Hits(h, k, n + 1, m, x) <==> Hits(h, k, n, m, x) || Probe(h(k).0, h(k).1, n, m) == x
  {
    hide Probe;
  }

  lemma NoBits(bits: Bytes)
    requires forall i :: 0 <= i < |bits| ==> bits[i] == 0
    ensures forall x :: 0 <= x < 8 * |bits| ==> !BitAt(bits, x)
  {
    hide Mask, Bits;
    ZeroValue();
  }

  /** The bits of a built filter: those at h1 + i * h2, modulo 2^64 and then the number of bits, for the keys built. */
  lemma FilterBits(bits: Bytes, h: (Key) -> (nat, nat), hashes: nat, keys: seq<Key>, x: nat)
    requires bits != [] && Covers(bits, h, hashes, keys, |keys|) && x < 8 * |bits|
    ensures HasBit(bits[x / 8], x % 8)
       <==> exists j, i :: 0 <= j < |keys| && 0 <= i < hashes && IsProbe(h(keys[j]), i, 8 * |bits|, x)
  {
    hide HasBit;
    if HasBit(bits[x / 8], x % 8) {
      assert BitAt(bits, x) && SetBy(h, hashes, keys, |keys|, 8 * |bits|, x);
      var j :| 0 <= j < |keys| && Hits(h, keys[j], hashes, 8 * |bits|, x);
      var i :| 0 <= i < hashes && Probe(h(keys[j]).0, h(keys[j]).1, i, 8 * |bits|) == x;
      assert IsProbe(h(keys[j]), i, 8 * |bits|, x);
    }
    if j, i :| 0 <= j < |keys| && 0 <= i < hashes && IsProbe(h(keys[j]), i, 8 * |bits|, x) {
      assert Probe(h(keys[j]).0, h(keys[j]).1, i, 8 * |bits|) == x;
      assert Hits(h, keys[j], hashes, 8 * |bits|, x);
      assert SetBy(h, hashes, keys, |keys|, 8 * |bits|, x);
    }
  }

  ghost predicate IsProbe(hash: (nat, nat), i: nat, m: nat, x: nat)
    requires m > 0
  {
    x == (hash.0 + i * hash.1) % 0x1_0000_0000_0000_0000 % m
  }

  /** No false negatives: a filter of the keys admits every one of them. */
  lemma NoFalseNegatives(bits: Bytes, h: (Key) -> (nat, nat), hashes: nat, keys: seq<Key>, j: nat)
    requires bits != [] && Covers(bits, h, hashes, keys, |keys|) && j < |keys|
    ensures MayContain(bits, h, hashes, keys[j])
  {
    hide BitAt, Probe;
    var m := 8 * |bits|;
    forall i | 0 <= i < hashes ensures BitAt(bits, Probe(h(keys[j]).0, h(keys[j]).1, i, m)) {
      var x := Probe(h(keys[j]).0, h(keys[j]).1, i, m);
      assert Hits(h, keys[j], hashes, m, x);
      assert SetBy(h, hashes, keys, |keys|, m, x);
    }
  }
}
