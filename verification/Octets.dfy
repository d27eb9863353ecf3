/** Bytes as integers and as eight-bit vectors. */
module Octets {
  import opened Keys

  function Bits(b: Byte): bv8 {
    b as bv8
  }

  function FromBits(y: bv8): Byte {
    y as int
  }

  lemma BitsOf(y: bv8)
    ensures Bits(FromBits(y)) == y
  {
  }

  lemma NextValue(y: bv8)
    requires y != 255
    ensures FromBits(y + 1) == FromBits(y) + 1
  {
  }

  lemma LastValue(y: bv8)
    requires y == 255
    ensures FromBits(y) == 255
  {
  }

  /** Every byte is the value of some vector. */
  lemma {:induction false} VectorOf(b: Byte) returns (y: bv8)
    ensures FromBits(y) == b
  {
    hide FromBits;
    if b == 0 {
      y := 0;
      ZeroValue();
    } else {
      y := VectorOf(b - 1);
      if y == 255 { LastValue(y); }
      NextValue(y);
      y := y + 1;
    }
  }

  lemma ZeroValue()
    ensures FromBits(0) == 0 && Bits(0) == 0
  {
  }

  lemma ValueOf(b: Byte)
    ensures FromBits(Bits(b)) == b
  {
    hide FromBits, Bits;
    var y := VectorOf(b);
    BitsOf(y);
  }
}
