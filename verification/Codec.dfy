/** Little-endian integers as they are copied into buffers and back. */
module Codec {
  import opened Keys

  type Bytes = seq<Byte>

  const TWO32: nat := 0x1_0000_0000
  const TWO64: nat := 0x1_0000_0000_0000_0000

  /** The low 32 bits of `n`, least significant byte first. */
  function U32(n: nat): (b: Bytes)
    ensures |b| == 4
  {
    var n1 := n / 256;
    var n2 := n1 / 256;
    [n % 256, n1 % 256, n2 % 256, n2 / 256 % 256]
  }

  function U64(n: nat): (b: Bytes)
    ensures |b| == 8
  {
    U32(n) + U32(n / TWO32)
  }

  function Value32(b: Bytes): (n: nat)
    requires |b| == 4
    ensures n < TWO32
  {
    var b0: int, b1: int, b2: int, b3: int := b[0], b[1], b[2], b[3];
    b0 + 0x100 * b1 + 0x1_0000 * b2 + 0x100_0000 * b3
  }

  function Value64(b: Bytes): (n: nat)
    requires |b| == 8
    ensures n < TWO64
  {
    Value32(b[..4]) + TWO32 * Value32(b[4..])
  }

  lemma RoundTrip32(n: nat)
    ensures Value32(U32(n)) == n % TWO32
  {
    var n1 := n / 256;
    var n2 := n1 / 256;
    var n3 := n2 / 256;
    assert n == TWO32 * (n3 / 256) + Value32(U32(n));
  }

  lemma RoundTrip64(n: nat)
    requires n < TWO64
    ensures Value64(U64(n)) == n
  {
    RoundTrip32(n);
    RoundTrip32(n / TWO32);
    assert U64(n)[..4] == U32(n) && U64(n)[4..] == U32(n / TWO32);
  }

  lemma Bytes32(b: Bytes)
    requires |b| == 4
    ensures U32(Value32(b)) == b
  {
    var n := Value32(b);
    var b1: int, b2: int, b3: int := b[1], b[2], b[3];
    assert n / 0x100 == b1 + 0x100 * b2 + 0x1_0000 * b3;
    assert n / 0x100 / 0x100 == b2 + 0x100 * b3;
    assert n / 0x100 / 0x100 / 0x100 == b3;
  }

  /** Slices of a slice. */
  lemma SliceWithin(b: Bytes, lo: nat, hi: nat, s: Bytes, i: nat, j: nat)
    requires lo <= hi <= |b| && b[lo..hi] == s && i <= j <= |s|
    ensures b[lo + i..lo + j] == s[i..j]
  {
    forall x | 0 <= x < j - i ensures b[lo + i..lo + j][x] == s[i..j][x] {
      assert s[i + x] == b[lo..hi][i + x] == b[lo + i + x];
    }
  }
}
