/** CRC-32 as in clause 3.2.9 of IEEE 802.3, coded in reflected form as in section 8 of RFC 1952. */
module Crc {
  import opened Keys
  import opened Codec
  import opened Octets

  const POLY: bv32 := 0xEDB8_8320
  const ONES: bv32 := 0xFFFF_FFFF

  function Xor(a: bv32, b: bv32): bv32 {
    a ^ b
  }

  function Half(c: bv32): bv32 {
    c >> 1
  }

  /** Division by the polynomial, one bit: shift, and subtract if a one fell out. */
  function Shift1(c: bv32): bv32 {
    Xor(Half(c), POLY & (0 - (c & 1)))
  }

  function Shift(c: bv32, n: nat): bv32 {
    if n == 0 then c else Shift1(Shift(c, n - 1))
  }

  function ByteBits(b: Byte): bv32 {
    Bits(b) as bv32
  }

  /** Bitwise division of a whole message: each byte enters the low end, then eight single shifts. */
  function Divide(c: bv32, data: Bytes): bv32 {
    if data == [] then c else Shift(Xor(Divide(c, data[..|data| - 1]), ByteBits(data[|data| - 1])), 8)
  }

  function Checksum(data: Bytes): bv32 {
    Xor(Divide(ONES, data), ONES)
  }

  /** A checksum continued over more bytes. */
  function Extend(crc: bv32, data: Bytes): bv32 {
    Xor(Divide(Xor(crc, ONES), data), ONES)
  }

  // ------------------------------------------------------- laws of exclusive or

  lemma XorCommutes(a: bv32, b: bv32)
    ensures Xor(a, b) == Xor(b, a)
  {
  }

  lemma XorAssociates(a: bv32, b: bv32, c: bv32)
    ensures Xor(Xor(a, b), c) == Xor(a, Xor(b, c))
  {
  }

  lemma XorSwap(a: bv32, b: bv32, c: bv32, d: bv32)
    ensures Xor(Xor(a, b), Xor(c, d)) == Xor(Xor(a, c), Xor(b, d))
  {
    hide Xor;
    XorAssociates(a, b, Xor(c, d));
    XorAssociates(b, c, d);
    XorCommutes(b, c);
    XorAssociates(c, b, d);
    XorAssociates(a, c, Xor(b, d));
  }

  lemma XorSelf(a: bv32)
    ensures Xor(a, a) == 0
  {
  }

  lemma XorZero(a: bv32)
    ensures Xor(a, 0) == a
  {
  }

  lemma XorCancel(a: bv32, b: bv32)
    ensures Xor(Xor(a, b), b) == a
    ensures Xor(a, b) == 0 <==> a == b
  {
    hide Xor;
    XorAssociates(a, b, b);
    XorSelf(b);
    XorZero(a);
    XorCommutes(0, b);
    XorZero(b);
  }

  // --------------------------------------------------------------- linearity

  function Low(c: bv32): bv32 { if c & 1 == 0 then 0 else POLY }

  lemma Shift1Cases(c: bv32)
    ensures Shift1(c) == Xor(Half(c), Low(c))
  {
    assert c & 1 == 0 || c & 1 == 1;
    assert POLY & (0 - 0) == 0 && POLY & (0 - 1) == POLY;
  }

  lemma XorShift(a: bv32, b: bv32)
    ensures Half(Xor(a, b)) == Xor(Half(a), Half(b))
  {
  }

  lemma XorLow(a: bv32, b: bv32)
    ensures Low(Xor(a, b)) == Xor(Low(a), Low(b))
  {
    assert (a ^ b) & 1 == (a & 1) ^ (b & 1);
    assert (a & 1 == 0 || a & 1 == 1) && (b & 1 == 0 || b & 1 == 1);
  }

  lemma Shift1Linear(a: bv32, b: bv32)
    ensures Shift1(Xor(a, b)) == Xor(Shift1(a), Shift1(b))
  {
    hide Xor, Shift1, Low, Half;
    Shift1Cases(a);
    Shift1Cases(b);
    Shift1Cases(Xor(a, b));
    XorShift(a, b);
    XorLow(a, b);
    XorSwap(Half(a), Half(b), Low(a), Low(b));
  }

  /** The polynomial's top bit is set, so a shift never loses information. */
  lemma Shift1Injective(a: bv32)
    requires Shift1(a) == 0
    ensures a == 0
  {
    Shift1Cases(a);
    assert (a >> 1) ^ POLY != 0;
    assert (a >> 1) == 0 && a & 1 == 0 ==> a == 0;
  }

  lemma {:induction false} ShiftLinear(a: bv32, b: bv32, n: nat)
    ensures Shift(Xor(a, b), n) == Xor(Shift(a, n), Shift(b, n))
  {
    hide Xor, Shift1;
    if n > 0 {
      ShiftLinear(a, b, n - 1);
      Shift1Linear(Shift(a, n - 1), Shift(b, n - 1));
    }
  }

  lemma {:induction false} ShiftInjective(a: bv32, n: nat)
    requires Shift(a, n) == 0
    ensures a == 0
  {
    hide Shift1;
    if n > 0 {
      Shift1Injective(Shift(a, n - 1));
      ShiftInjective(a, n - 1);
    }
  }

  // ------------------------------------------------------------- table form

  predicate Even(c: bv32) {
    c & 1 == 0
  }

  function Drop8(c: bv32): bv32 {
    c >> 8
  }

  function Quarter(c: bv32): bv32 {
    c >> 2
  }

  function Sixteenth(c: bv32): bv32 {
    c >> 4
  }

  lemma TwoHalves(c: bv32)
    ensures Half(Half(c)) == Quarter(c)
  {
  }

  lemma TwoQuarters(c: bv32)
    ensures Quarter(Quarter(c)) == Sixteenth(c)
  {
  }

  lemma TwoSixteenths(c: bv32)
    ensures Sixteenth(Sixteenth(c)) == Drop8(c)
  {
  }

  lemma FourHalves(c: bv32)
    ensures Half(Half(Half(Half(c)))) == Sixteenth(c)
  {
    hide Half, Quarter, Sixteenth;
    TwoHalves(c);
    TwoHalves(Quarter(c));
    TwoQuarters(c);
  }

  lemma HalvesCompose(c: bv32)
    ensures Half(Half(Half(Half(Half(Half(Half(Half(c)))))))) == Drop8(c)
  {
    hide Half, Sixteenth, Drop8;
    FourHalves(c);
    FourHalves(Sixteenth(c));
    TwoSixteenths(c);
  }

  /** `n` zero bits at the low end. */
  ghost predicate Clear(c: bv32, n: nat) {
    n == 0 || (Even(c) && Clear(Half(c), n - 1))
  }

  function And(a: bv32, b: bv32): bv32 {
    a & b
  }

  /** Bits known to be clear move down with a halving. */
  lemma ClearStep(c: bv32, mask: bv32)
    requires And(c, mask) == 0 && !Even(mask)
    ensures Even(c) && And(Half(c), Half(mask)) == 0
  {
  }

  lemma Masks()
    ensures Half(0xFF) == 0x7F && Half(0x7F) == 0x3F && Half(0x3F) == 0x1F && Half(0x1F) == 0x0F
    ensures Half(0x0F) == 0x07 && Half(0x07) == 0x03 && Half(0x03) == 0x01
    ensures !Even(0xFF) && !Even(0x7F) && !Even(0x3F) && !Even(0x1F) && !Even(0x0F) && !Even(0x07) && !Even(0x03)
            && !Even(0x01)
  {
  }

  lemma ClearByte(c: bv32)
    requires And(c, 0xFF) == 0
    ensures Clear(c, 8)
  {
    hide Half, Even, And;
    Masks();
    var c1 := Half(c);
    var c2 := Half(c1);
    var c3 := Half(c2);
    var c4 := Half(c3);
    ClearStep(c, 0xFF);
    ClearStep(c1, 0x7F);
    ClearStep(c2, 0x3F);
    ClearStep(c3, 0x1F);
    ClearNibble(c4);
    assert Clear(c3, 5) && Clear(c2, 6) && Clear(c1, 7);
  }

  lemma ClearNibble(c: bv32)
    requires And(c, 0x0F) == 0
    ensures Clear(c, 4)
  {
    hide Half, Even, And;
    Masks();
    var c1 := Half(c);
    var c2 := Half(c1);
    var c3 := Half(c2);
    ClearStep(c, 0x0F);
    ClearStep(c1, 0x07);
    ClearStep(c2, 0x03);
    ClearStep(c3, 0x01);
    assert Clear(Half(c3), 0) && Clear(c3, 1) && Clear(c2, 2) && Clear(c1, 3);
  }

  lemma Shift1Zero(c: bv32)
    requires Even(c)
    ensures Shift1(c) == Half(c)
  {
    Shift1Cases(c);
  }

  function Halves(c: bv32, n: nat): bv32 {
    if n == 0 then c else Half(Halves(c, n - 1))
  }

  lemma {:induction false} HalvesFront(c: bv32, n: nat)
    requires n > 0
    ensures Halves(c, n) == Halves(Half(c), n - 1)
  {
    hide Half;
    if n > 1 {
      HalvesFront(c, n - 1);
    }
  }

  lemma {:induction false} ShiftFront(c: bv32, n: nat)
    requires n > 0
    ensures Shift(c, n) == Shift(Shift1(c), n - 1)
  {
    hide Shift1;
    if n > 1 {
      ShiftFront(c, n - 1);
    }
  }

  /** Shifting out zero bits is a plain shift. */
  lemma {:induction false} ShiftClear(c: bv32, n: nat)
    requires Clear(c, n)
    ensures Shift(c, n) == Halves(c, n)
    decreases n
  {
    hide Shift1, Half, Even;
    if n > 0 {
      Shift1Zero(c);
      ShiftClear(Half(c), n - 1);
      ShiftFront(c, n);
      HalvesFront(c, n);
    }
  }

  lemma Halves8(c: bv32)
    ensures Halves(c, 8) == Drop8(c)
  {
    hide Half, Drop8;
    HalvesCompose(c);
    assert Halves(c, 1) == Half(c);
    assert Halves(c, 2) == Half(Halves(c, 1));
    assert Halves(c, 3) == Half(Halves(c, 2));
    assert Halves(c, 4) == Half(Halves(c, 3));
    assert Halves(c, 5) == Half(Halves(c, 4));
    assert Halves(c, 6) == Half(Halves(c, 5));
    assert Halves(c, 7) == Half(Halves(c, 6));
  }

  function LowByte(x: bv32): bv32 {
    x & 0xFF
  }

  function HighBytes(x: bv32): bv32 {
    x & 0xFFFF_FF00
  }

  lemma SplitLow(x: bv32)
    ensures x == Xor(HighBytes(x), LowByte(x))
  {
  }

  lemma HighFacts(x: bv32)
    ensures Drop8(HighBytes(x)) == Drop8(x)
    ensures Clear(HighBytes(x), 8)
  {
    assert (x & 0xFFFF_FF00) & 0xFF == 0;
    ClearByte(HighBytes(x));
  }

  /** The table step equals eight single shifts. */
  lemma TableStep(x: bv32)
    ensures Shift(x, 8) == Xor(Drop8(x), Shift(LowByte(x), 8))
  {
    hide Shift, Xor, HighBytes, LowByte, Drop8, Clear, Halves;
    SplitLow(x);
    HighFacts(x);
    ShiftLinear(HighBytes(x), LowByte(x), 8);
    ShiftClear(HighBytes(x), 8);
    Halves8(HighBytes(x));
  }

  // ------------------------------------------------------------ the code

  lemma ByteBound(b: Byte)
    ensures HighBytes(ByteBits(b)) == 0
  {
  }

  /** The low byte of a word as a table index. */
  function Index(x: bv32): Byte {
    FromBits((x & 0xFF) as bv8)
  }

  lemma ByteIndex(x: bv32)
    ensures ByteBits(Index(x)) == LowByte(x)
  {
    BitsOf((x & 0xFF) as bv8);
  }

  lemma DropByte(c: bv32, b: bv32)
    requires HighBytes(b) == 0
    ensures Drop8(Xor(c, b)) == Drop8(c)
  {
  }

  ghost predicate IsTable(t: seq<bv32>) {
    |t| == 256 && forall i: Byte :: t[i] == Shift(ByteBits(i), 8)
  }

  /** Fills the lookup table: entry `i` is `i` divided for eight bits. */
  method InitTable(table: array<bv32>)
    requires table.Length == 256
    modifies table
    ensures IsTable(table[..])
  {
    hide Shift1;
    var i := 0;
    while i < 256
      invariant i <= 256
      invariant forall j: Byte :: j < i ==> table[j] == Shift(ByteBits(j), 8)
    {
      var crc := ByteBits(i);
      var j := 0;
      while j < 8
        invariant j <= 8 && crc == Shift(ByteBits(i), j)
      {
        crc := Shift1(crc);
        j := j + 1;
      }
      table[i] := crc;
      i := i + 1;
    }
  }

  /** One byte through the table. */
  function Next(t: seq<bv32>, c: bv32, b: Byte): bv32
    requires |t| == 256
  {
    Xor(Drop8(c), t[Index(Xor(c, ByteBits(b)))])
  }

  /** The table form does the bitwise division. */
  lemma NextIsShift(t: seq<bv32>, c: bv32, b: Byte)
    requires IsTable(t)
    ensures Next(t, c, b) == Shift(Xor(c, ByteBits(b)), 8)
  {
    hide Shift, Xor, LowByte, Drop8, ByteBits, HighBytes, Index;
    var x := Xor(c, ByteBits(b));
    TableStep(x);
    ByteBound(b);
    DropByte(c, ByteBits(b));
    ByteIndex(x);
  }

  lemma DivideStep(c: bv32, data: Bytes, i: nat)
    requires i < |data|
    ensures Divide(c, data[..i + 1]) == Shift(Xor(Divide(c, data[..i]), ByteBits(data[i])), 8)
  {
    hide Shift, Xor, ByteBits;
    assert data[..i + 1][..i] == data[..i];
  }

  /** Runs bytes through the table from a given remainder. */
  method Update(t: seq<bv32>, start: bv32, data: Bytes) returns (c: bv32)
    requires IsTable(t)
    ensures c == Divide(start, data)
  {
    hide Shift, Xor, Divide, IsTable, Next, ByteBits;
    c := start;
    var i := 0;
    DivideNothing(c);
    while i < |data|
      invariant i <= |data| && c == Divide(start, data[..i])
    {
      TableSize(t);
      NextIsShift(t, c, data[i]);
      DivideStep(start, data, i);
      c := Next(t, c, data[i]);
      i := i + 1;
    }
    assert data[..i] == data;
  }

  method Compute(t: seq<bv32>, data: Bytes) returns (r: bv32)
    requires IsTable(t)
    ensures r == Checksum(data)
  {
    var c := Update(t, ONES, data);
    r := Xor(c, ONES);
  }

  /** Continues a checksum over more bytes. */
  method ComputeIncremental(t: seq<bv32>, crc: bv32, data: Bytes) returns (r: bv32)
    requires IsTable(t)
    ensures r == Extend(crc, data)
  {
    var c := Update(t, Xor(crc, ONES), data);
    r := Xor(c, ONES);
  }

  /** The checksum of a log record's fields, fed one after the other: that of their concatenation. */
  method RecordChecksum(t: seq<bv32>, keySize: nat, fileId: nat, offset: nat, length: nat, key: Key) returns (r: bv32)
    requires IsTable(t) && keySize == |key|
    ensures r == Checksum(U32(keySize) + U32(fileId) + U64(offset) + U32(length) + key)
  {
    hide U32, U64, Divide, Xor;
    var c := Update(t, ONES, U32(keySize));
    c := Update(t, c, U32(fileId));
    DivideAppend(ONES, U32(keySize), U32(fileId));
    c := Update(t, c, U64(offset));
    DivideAppend(ONES, U32(keySize) + U32(fileId), U64(offset));
    c := Update(t, c, U32(length));
    DivideAppend(ONES, U32(keySize) + U32(fileId) + U64(offset), U32(length));
    if keySize > 0 {
      c := Update(t, c, key);
      DivideAppend(ONES, U32(keySize) + U32(fileId) + U64(offset) + U32(length), key);
    } else {
      assert U32(keySize) + U32(fileId) + U64(offset) + U32(length) + key
          == U32(keySize) + U32(fileId) + U64(offset) + U32(length);
    }
    r := Xor(c, ONES);
  }

  lemma TableSize(t: seq<bv32>)
    requires IsTable(t)
    ensures |t| == 256
  {
  }

  lemma DivideNothing(c: bv32)
    ensures Divide(c, []) == c
  {
  }

  // ------------------------------------------------- independence of chunking

  lemma {:induction false} DivideAppend(c: bv32, a: Bytes, b: Bytes)
    ensures Divide(c, a + b) == Divide(Divide(c, a), b)
  {
    hide Shift, Xor, ByteBits;
    if b == [] {
      assert a + b == a;
    } else {
      var n := |b| - 1;
      assert (a + b)[..|a| + n] == a + b[..n];
      DivideAppend(c, a, b[..n]);
    }
  }

  /** Checksumming in pieces, starting from zero, gives the checksum of the whole. */
  lemma ChunkingIsInvisible(a: Bytes, b: Bytes)
    ensures Extend(Checksum(a), b) == Checksum(a + b)
    ensures Extend(0, a) == Checksum(a)
    ensures Checksum([]) == 0
  {
    hide Xor, Divide;
    DivideAppend(ONES, a, b);
    XorCancel(Divide(ONES, a), ONES);
    ZeroStart();
  }

  lemma ZeroStart()
    ensures Xor(0, ONES) == ONES && Checksum([]) == 0
  {
  }

  // ---------------------------------------------------------- burst detection

  lemma ShiftDistinct(a: bv32, b: bv32, n: nat)
    requires Shift(a, n) == Shift(b, n)
    ensures a == b
  {
    hide Xor, Shift;
    ShiftLinear(a, b, n);
    XorCancel(Shift(a, n), Shift(b, n));
    ShiftInjective(Xor(a, b), n);
    XorCancel(a, b);
  }

  lemma XorRight(a: bv32, b: bv32, c: bv32)
    requires Xor(a, c) == Xor(b, c)
    ensures a == b
  {
    hide Xor;
    XorCancel(a, c);
    XorCancel(b, c);
  }

  /** Different remainders stay different through the same further bytes. */
  lemma {:induction false} DivideDistinct(c: bv32, d: bv32, data: Bytes)
    requires Divide(c, data) == Divide(d, data)
    ensures c == d
    decreases |data|
  {
    hide Shift, Xor, ByteBits;
    if data != [] {
      var n := |data| - 1;
      var b := ByteBits(data[n]);
      ShiftDistinct(Xor(Divide(c, data[..n]), b), Xor(Divide(d, data[..n]), b), 8);
      XorRight(Divide(c, data[..n]), Divide(d, data[..n]), b);
      DivideDistinct(c, d, data[..n]);
    }
  }

  lemma {:induction false} ShiftAdd(c: bv32, a: nat, b: nat)
    ensures Shift(Shift(c, a), b) == Shift(c, a + b)
  {
    hide Shift1;
    if b > 0 {
      ShiftAdd(c, a, b - 1);
    }
  }

  /** A byte moved up `k` bytes. */
  function Up(d: bv32, k: nat): bv32 {
    if k == 0 then d else if k == 1 then d << 8 else if k == 2 then d << 16 else d << 24
  }

  lemma UpFacts(d: bv32, k: nat)
    requires HighBytes(d) == 0 && 0 < k <= 3
    ensures And(Up(d, k), 0xFF) == 0 && Drop8(Up(d, k)) == Up(d, k - 1)
  {
    if k == 1 {} else if k == 2 {} else {}
  }

  lemma {:induction false} ShiftUp(d: bv32, k: nat)
    requires HighBytes(d) == 0 && k <= 3
    ensures Shift(Up(d, k), 8 * k) == d
  {
    if k == 0 {
      ShiftNothing(d);
    } else {
      hide Shift, Up, HighBytes, Drop8, Halves, Clear;
      UpFacts(d, k);
      ClearByte(Up(d, k));
      ShiftClear(Up(d, k), 8);
      Halves8(Up(d, k));
      ShiftUp(d, k - 1);
      ShiftAdd(Up(d, k), 8, 8 * (k - 1));
    }
  }

  /** Up to four difference bytes as one word. */
  ghost function Word(ds: seq<bv32>): bv32 {
    if ds == [] then 0 else Xor(Word(ds[..|ds| - 1]), Up(ds[|ds| - 1], |ds| - 1))
  }

  ghost predicate Bytewise(ds: seq<bv32>) {
    |ds| <= 4 && forall i :: 0 <= i < |ds| ==> HighBytes(ds[i]) == 0
  }

  lemma FourBytes(a: bv32, b: bv32, c: bv32, d: bv32)
    requires HighBytes(a) == 0 && HighBytes(b) == 0 && HighBytes(c) == 0 && HighBytes(d) == 0
    requires ((a ^ (b << 8)) ^ (c << 16)) ^ (d << 24) == 0
    ensures a == 0 && b == 0 && c == 0 && d == 0
  {
  }

  lemma FourUps(a: bv32, b: bv32, c: bv32, d: bv32)
    requires HighBytes(a) == 0 && HighBytes(b) == 0 && HighBytes(c) == 0 && HighBytes(d) == 0
    requires Xor(Xor(Xor(Xor(0, Up(a, 0)), Up(b, 1)), Up(c, 2)), Up(d, 3)) == 0
    ensures a == 0 && b == 0 && c == 0 && d == 0
  {
    FourBytes(a, b, c, d);
  }

  lemma UpNothing(w: bv32, k: nat)
    ensures Xor(w, Up(0, k)) == w && HighBytes(0) == 0
  {
    if k == 0 {} else if k == 1 {} else if k == 2 {} else {}
  }

  lemma WordFour(ds: seq<bv32>)
    requires |ds| == 4
    ensures Word(ds) == Xor(Xor(Xor(Xor(0, Up(ds[0], 0)), Up(ds[1], 1)), Up(ds[2], 2)), Up(ds[3], 3))
  {
    hide Xor, Up;
    assert ds[..3][..2] == ds[..2] && ds[..2][..1] == ds[..1] && ds[..1][..0] == [];
    assert Word(ds[..1]) == Xor(0, Up(ds[0], 0));
    assert Word(ds[..2]) == Xor(Word(ds[..1]), Up(ds[1], 1));
    assert Word(ds[..3]) == Xor(Word(ds[..2]), Up(ds[2], 2));
  }

  lemma {:induction false} WordZero(ds: seq<bv32>)
    requires Bytewise(ds) && Word(ds) == 0
    ensures forall i :: 0 <= i < |ds| ==> ds[i] == 0
    decreases 4 - |ds|
  {
    hide Xor, Up, HighBytes;
    if |ds| == 4 {
      WordFour(ds);
      FourUps(ds[0], ds[1], ds[2], ds[3]);
    } else {
      var more := ds + [0 as bv32];
      assert more[..|ds|] == ds;
      UpNothing(Word(ds), |ds|);
      WordZero(more);
      assert forall i :: 0 <= i < |ds| ==> ds[i] == more[i];
    }
  }

  /** The byte differences of two windows. */
  ghost function Differences(u: Bytes, w: Bytes): seq<bv32>
    requires |u| == |w|
  {
    seq(|u|, i requires 0 <= i < |u| => Xor(ByteBits(u[i]), ByteBits(w[i])))
  }

  /** From one remainder, two windows of up to four bytes part by the division of their difference word. */
  lemma {:induction false} WindowDifference(c: bv32, u: Bytes, w: Bytes)
    requires |u| == |w| <= 4
    ensures Bytewise(Differences(u, w))
    ensures Xor(Divide(c, u), Divide(c, w)) == Shift(Word(Differences(u, w)), 8 * |u|)
  {
    hide Shift, Xor, ByteBits, Up, HighBytes;
    var n := |u| - 1;
    forall i | 0 <= i < |u| ensures HighBytes(Xor(ByteBits(u[i]), ByteBits(w[i]))) == 0 {
      XorBytes(u[i], w[i]);
    }
    if n < 0 {
      XorCancel(c, c);
      ShiftNothing(0);
    } else {
      WindowDifference(c, u[..n], w[..n]);
      var ds := Differences(u, w);
      assert ds[..n] == Differences(u[..n], w[..n]);
      OneMoreByte(Divide(c, u[..n]), Divide(c, w[..n]), ByteBits(u[n]), ByteBits(w[n]), Word(ds[..n]), n);
    }
  }

  lemma OneMoreByte(a: bv32, b: bv32, x: bv32, y: bv32, word: bv32, n: nat)
    requires Xor(a, b) == Shift(word, 8 * n) && HighBytes(Xor(x, y)) == 0 && n <= 3
    ensures Xor(Shift(Xor(a, x), 8), Shift(Xor(b, y), 8)) == Shift(Xor(word, Up(Xor(x, y), n)), 8 * (n + 1))
  {
    hide Shift, Xor, Up, HighBytes;
    ShiftLinear(Xor(a, x), Xor(b, y), 8);
    XorSwap(a, x, b, y);
    ShiftUp(Xor(x, y), n);
    ShiftLinear(word, Up(Xor(x, y), n), 8 * n);
    ShiftAdd(Xor(word, Up(Xor(x, y), n)), 8 * n, 8);
  }

  lemma ShiftNothing(c: bv32)
    ensures Shift(c, 0) == c
  {
  }

  lemma XorBytes(a: Byte, b: Byte)
    ensures HighBytes(Xor(ByteBits(a), ByteBits(b))) == 0
  {
  }

  lemma ByteDistinct(a: Byte, b: Byte)
    requires Xor(ByteBits(a), ByteBits(b)) == 0
    ensures a == b
  {
    XorCancel(ByteBits(a), ByteBits(b));
    ValueOf(a);
    ValueOf(b);
  }

  /** A burst of up to four bytes always changes the checksum. */
  lemma BurstDetected(a: Bytes, u: Bytes, w: Bytes, z: Bytes)
    requires |u| == |w| <= 4 && u != w
    ensures Checksum(a + u + z) != Checksum(a + w + z)
  {
    hide Shift, Xor, ByteBits, Divide, Word;
    if Checksum(a + u + z) == Checksum(a + w + z) {
      XorRight(Divide(ONES, a + u + z), Divide(ONES, a + w + z), ONES);
      DivideAppend(ONES, a + u, z);
      DivideAppend(ONES, a + w, z);
      DivideDistinct(Divide(ONES, a + u), Divide(ONES, a + w), z);
      DivideAppend(ONES, a, u);
      DivideAppend(ONES, a, w);
      SameWindow(Divide(ONES, a), u, w);
    }
  }

  lemma SameWindow(c: bv32, u: Bytes, w: Bytes)
    requires |u| == |w| <= 4 && Divide(c, u) == Divide(c, w)
    ensures u == w
  {
    hide Shift, Xor, ByteBits, Divide, Word, HighBytes;
    WindowDifference(c, u, w);
    XorCancel(Divide(c, u), Divide(c, w));
    ShiftInjective(Word(Differences(u, w)), 8 * |u|);
    WordZero(Differences(u, w));
    forall i | 0 <= i < |u| ensures u[i] == w[i] {
      assert Differences(u, w)[i] == 0;
      ByteDistinct(u[i], w[i]);
    }
  }

  /** The same, by positions: messages of one length that differ only within four consecutive places. */
  lemma BurstDetectedAt(m: Bytes, m': Bytes, i: nat)
    requires |m| == |m'| && m != m'
    requires forall j :: 0 <= j < |m| && !(i <= j < i + 4) ==> m[j] == m'[j]
    ensures Checksum(m) != Checksum(m')
  {
    hide Checksum;
    var lo := if i < |m| then i else |m|;
    var hi := if i + 4 < |m| then i + 4 else |m|;
    assert m == m[..lo] + m[lo..hi] + m[hi..];
    assert m' == m[..lo] + m'[lo..hi] + m[hi..];
    BurstDetected(m[..lo], m[lo..hi], m'[lo..hi], m[hi..]);
  }

  // ---------------------------------------------------- stored as an integer

  /** The checksum as the 32-bit number written to a file. */
  function Crc32(data: Bytes): (n: nat)
    ensures n < TWO32
  {
    Checksum(data) as int
  }

  lemma Crc32Distinct(a: Bytes, b: Bytes)
    requires Crc32(a) == Crc32(b)
    ensures Checksum(a) == Checksum(b)
  {
    hide Checksum;
    assert (Checksum(a) as int) as bv32 == Checksum(a);
    assert (Checksum(b) as int) as bv32 == Checksum(b);
  }

  // ------------------------------------------------------------ known values

  /** The polynomial: bit `31 - i` stands for x^i, and x^32 is implied. */
  lemma PolyExponents()
    ensures POLY == (1 << 31) | (1 << 30) | (1 << 29) | (1 << 27) | (1 << 26) | (1 << 24) | (1 << 23) | (1 << 21)
                  | (1 << 20) | (1 << 19) | (1 << 15) | (1 << 9) | (1 << 8) | (1 << 5)
  {
  }

  lemma EightShifts(c: bv32, s: seq<bv32>)
    requires |s| == 8 && Shift1(c) == s[0] && forall i :: 0 <= i < 7 ==> Shift1(s[i]) == s[i + 1]
    ensures Shift(c, 8) == s[7]
  {
    hide Shift1;
    assert Shift(c, 0) == c && Shift(c, 1) == s[0] && Shift(c, 2) == s[1] && Shift(c, 3) == s[2];
    assert Shift(c, 4) == s[3] && Shift(c, 5) == s[4] && Shift(c, 6) == s[5] && Shift(c, 7) == s[6];
  }

  lemma CheckByte1()
    ensures Shift(Xor(0xFFFF_FFFF, ByteBits(49)), 8) == 0x7C23_1048
  {
    assert Xor(0xFFFF_FFFF, ByteBits(49)) == 0xFFFF_FFCE;
    EightShifts(0xFFFF_FFCE, [0x7FFF_FFE7, 0xD247_7CD3, 0x849B_3D49, 0xAFF5_1D84,
      0x57FA_8EC2, 0x2BFD_4761, 0xF846_2090, 0x7C23_1048]);
  }

  lemma CheckByte2()
    ensures Shift(Xor(0x7C23_1048, ByteBits(50)), 8) == 0xB0AC_BB32
  {
    assert Xor(0x7C23_1048, ByteBits(50)) == 0x7C23_107A;
    EightShifts(0x7C23_107A, [0x3E11_883D, 0xF2B0_473E, 0x7958_239F, 0xD114_92EF,
      0x8532_CA57, 0xAF21_E60B, 0xBA28_7025, 0xB0AC_BB32]);
  }

  lemma CheckByte3()
    ensures Shift(Xor(0xB0AC_BB32, ByteBits(51)), 8) == 0x77B7_9C2D
  {
    assert Xor(0xB0AC_BB32, ByteBits(51)) == 0xB0AC_BB01;
    EightShifts(0xB0AC_BB01, [0xB5EE_DEA0, 0x5AF7_6F50, 0x2D7B_B7A8, 0x16BD_DBD4,
      0x0B5E_EDEA, 0x05AF_76F5, 0xEF6F_385A, 0x77B7_9C2D]);
  }

  lemma CheckByte4()
    ensures Shift(Xor(0x77B7_9C2D, ByteBits(52)), 8) == 0x641C_1F5C
  {
    assert Xor(0x77B7_9C2D, ByteBits(52)) == 0x77B7_9C19;
    EightShifts(0x77B7_9C19, [0xD663_4D2C, 0x6B31_A696, 0x3598_D34B, 0xF774_EA85,
      0x9602_F662, 0x4B01_7B31, 0xC838_3EB8, 0x641C_1F5C]);
  }

  lemma CheckByte5()
    ensures Shift(Xor(0x641C_1F5C, ByteBits(53)), 8) == 0x340A_C5E3
  {
    assert Xor(0x641C_1F5C, ByteBits(53)) == 0x641C_1F69;
    EightShifts(0x641C_1F69, [0xDFB6_8C94, 0x6FDB_464A, 0x37ED_A325, 0xF64E_52B2,
      0x7B27_2959, 0xD02B_178C, 0x6815_8BC6, 0x340A_C5E3]);
  }

  lemma CheckByte6()
    ensures Shift(Xor(0x340A_C5E3, ByteBits(54)), 8) == 0xF68D_2C9E
  {
    assert Xor(0x340A_C5E3, ByteBits(54)) == 0x340A_C5D5;
    EightShifts(0x340A_C5D5, [0xF7BD_E1CA, 0x7BDE_F0E5, 0xD057_FB52, 0x682B_FDA9,
      0xD9AD_7DF4, 0x6CD6_BEFA, 0x366B_5F7D, 0xF68D_2C9E]);
  }

  lemma CheckByte7()
    ensures Shift(Xor(0xF68D_2C9E, ByteBits(55)), 8) == 0xAFFC_9660
  {
    assert Xor(0xF68D_2C9E, ByteBits(55)) == 0xF68D_2CA9;
    EightShifts(0xF68D_2CA9, [0x96FE_1574, 0x4B7F_0ABA, 0x25BF_855D, 0xFF67_418E,
      0x7FB3_A0C7, 0xD261_5343, 0x8488_2A81, 0xAFFC_9660]);
  }

  lemma CheckByte8()
    ensures Shift(Xor(0xAFFC_9660, ByteBits(56)), 8) == 0x651F_2550
  {
    assert Xor(0xAFFC_9660, ByteBits(56)) == 0xAFFC_9658;
    EightShifts(0xAFFC_9658, [0x57FE_4B2C, 0x2BFF_2596, 0x15FF_92CB, 0xE747_4A45,
      0x9E1B_2602, 0x4F0D_9301, 0xCA3E_4AA0, 0x651F_2550]);
  }

  lemma CheckByte9()
    ensures Shift(Xor(0x651F_2550, ByteBits(57)), 8) == 0x340B_C6D9
  {
    assert Xor(0x651F_2550, ByteBits(57)) == 0x651F_2569;
    EightShifts(0x651F_2569, [0xDF37_1194, 0x6F9B_88CA, 0x37CD_C465, 0xF65E_6112,
      0x7B2F_3089, 0xD02F_1B64, 0x6817_8DB2, 0x340B_C6D9]);
  }

  lemma DivideMore(data: Bytes, b: Byte)
    ensures Divide(ONES, data + [b]) == Shift(Xor(Divide(ONES, data), ByteBits(b)), 8)
  {
    hide Shift, Xor;
    assert (data + [b])[..|data|] == data;
  }

  /** The check value of CRC-32: the checksum of the digits one to nine in ASCII. */
  lemma CheckValue()
    ensures Checksum([0x31, 0x32, 0x33, 0x34, 0x35, 0x36, 0x37, 0x38, 0x39]) == 0xCBF4_3926
  {
    hide Shift, ByteBits, Divide;
    NoDivision();
    DivideMore([], 0x31);
    assert [] + [0x31] == [0x31];
    CheckByte1();
    DivideMore([0x31], 0x32);
    assert [0x31] + [0x32] == [0x31, 0x32];
    CheckByte2();
    DivideMore([0x31, 0x32], 0x33);
    assert [0x31, 0x32] + [0x33] == [0x31, 0x32, 0x33];
    CheckByte3();
    DivideMore([0x31, 0x32, 0x33], 0x34);
    assert [0x31, 0x32, 0x33] + [0x34] == [0x31, 0x32, 0x33, 0x34];
    CheckByte4();
    DivideMore([0x31, 0x32, 0x33, 0x34], 0x35);
    assert [0x31, 0x32, 0x33, 0x34] + [0x35] == [0x31, 0x32, 0x33, 0x34, 0x35];
    CheckByte5();
    DivideMore([0x31, 0x32, 0x33, 0x34, 0x35], 0x36);
    assert [0x31, 0x32, 0x33, 0x34, 0x35] + [0x36] == [0x31, 0x32, 0x33, 0x34, 0x35, 0x36];
    CheckByte6();
    DivideMore([0x31, 0x32, 0x33, 0x34, 0x35, 0x36], 0x37);
    assert [0x31, 0x32, 0x33, 0x34, 0x35, 0x36] + [0x37] == [0x31, 0x32, 0x33, 0x34, 0x35, 0x36, 0x37];
    CheckByte7();
    DivideMore([0x31, 0x32, 0x33, 0x34, 0x35, 0x36, 0x37], 0x38);
    assert [0x31, 0x32, 0x33, 0x34, 0x35, 0x36, 0x37] + [0x38] == [0x31, 0x32, 0x33, 0x34, 0x35, 0x36, 0x37, 0x38];
    CheckByte8();
    DivideMore([0x31, 0x32, 0x33, 0x34, 0x35, 0x36, 0x37, 0x38], 0x39);
    assert [0x31, 0x32, 0x33, 0x34, 0x35, 0x36, 0x37, 0x38] + [0x39]
        == [0x31, 0x32, 0x33, 0x34, 0x35, 0x36, 0x37, 0x38, 0x39];
    CheckByte9();
  }

  lemma NoDivision()
    ensures Divide(ONES, []) == ONES
  {
  }
}
