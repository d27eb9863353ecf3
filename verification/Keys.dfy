/** Byte strings, the order `std::string` compares them by, and value-log pointers. */
module Keys {
  type Byte = b: int | 0 <= b < 256
  type Key = seq<Byte>

  datatype Option<+T> = None | Some(value: T)

  /** `n` is the first position where `a` and `b` part, and `a` is the smaller there. */
  predicate SplitsBelow(a: Key, b: Key, n: nat) {
    && n <= |a| && n < |b|
    && a[..n] == b[..n]
    && (n < |a| ==> a[n] < b[n])
  }

  /** Unsigned lexicographic order, a proper prefix coming first. */
  predicate Below(a: Key, b: Key) {
    exists n :: 0 <= n < |b| && SplitsBelow(a, b, n)
  }

  /** The order byte by byte: the first byte decides, unsigned, and the empty string comes first. */
  lemma BelowByBytes(a: Key, b: Key)
    ensures !Below(a, []) && (b != [] ==> Below([], b))
    ensures a != [] && b != [] ==> (Below(a, b) <==> a[0] < b[0] || (a[0] == b[0] && Below(a[1..], b[1..])))
  {
    if b != [] { assert SplitsBelow([], b, 0); }
    if a != [] && b != [] {
      if a[0] < b[0] { assert SplitsBelow(a, b, 0); }
      if a[0] == b[0] && Below(a[1..], b[1..]) {
        var n: nat :| n < |b[1..]| && SplitsBelow(a[1..], b[1..], n);
        assert a[..n + 1] == [a[0]] + a[1..][..n] && b[..n + 1] == [b[0]] + b[1..][..n];
        assert SplitsBelow(a, b, n + 1);
      }
      if Below(a, b) {
        var n: nat :| n < |b| && SplitsBelow(a, b, n);
        if n > 0 {
          assert a[0] == a[..n][0] == b[..n][0] == b[0];
          assert a[1..][..n - 1] == a[..n][1..] && b[1..][..n - 1] == b[..n][1..];
          assert SplitsBelow(a[1..], b[1..], n - 1);
        }
      }
    }
  }

  predicate AtMost(a: Key, b: Key) {
    !Below(b, a)
  }

  lemma {:induction false} BelowTotal(a: Key, b: Key)
    ensures Below(a, b) || a == b || Below(b, a)
  {
    var n := FirstDifference(a, b);
    assert a[..n] == b[..n];
    if n < |b| && (n == |a| || a[n] < b[n]) {
      assert SplitsBelow(a, b, n);
    } else if n < |a| {
      assert SplitsBelow(b, a, n);
    } else {
      assert a == a[..n] && b == b[..n];
    }
  }

  function FirstDifference(a: Key, b: Key): (n: nat)
    ensures n <= |a| && n <= |b| && a[..n] == b[..n]
    ensures n < |a| && n < |b| ==> a[n] != b[n]
  {
    if a == [] || b == [] || a[0] != b[0] then 0
    else
      var m := FirstDifference(a[1..], b[1..]);
      assert a[..m + 1] == [a[0]] + a[1..][..m] && b[..m + 1] == [b[0]] + b[1..][..m];
      m + 1
  }

  lemma BelowIrreflexive(a: Key)
    ensures !Below(a, a)
  {
  }

  lemma BelowTransitive(a: Key, b: Key, c: Key)
    requires Below(a, b) && Below(b, c)
    ensures Below(a, c)
  {
    var m: nat :| m < |b| && SplitsBelow(a, b, m);
    var n: nat :| n < |c| && SplitsBelow(b, c, n);
    var k := if m < n then m else n;
    assert a[..k] == a[..m][..k] == b[..m][..k] == b[..k] == b[..n][..k] == c[..n][..k] == c[..k];
    if m < n {
      assert b[m] == b[..n][m] == c[..n][m] == c[m];
    } else if n < m {
      assert a[n] == a[..m][n] == b[..m][n] == b[n];
    }
    assert SplitsBelow(a, c, k);
  }

  lemma BelowAtMost(a: Key, b: Key, c: Key)
    requires Below(a, b) && AtMost(b, c)
    ensures Below(a, c)
  {
    BelowTotal(b, c);
    if b != c {
      BelowTransitive(a, b, c);
    }
  }

  lemma AtMostBelow(a: Key, b: Key, c: Key)
    requires AtMost(a, b) && Below(b, c)
    ensures Below(a, c)
  {
    BelowTotal(a, b);
    if a != b {
      BelowTransitive(a, b, c);
    }
  }

  lemma BelowAsymmetric(a: Key, b: Key)
    requires Below(a, b)
    ensures AtMost(a, b) && a != b
  {
    BelowIrreflexive(a);
    if Below(b, a) {
      BelowTransitive(a, b, a);
    }
  }

  /** The laws of the key order, for proofs about sorted tables. */
  lemma KeyOrder()
    ensures forall a: Key :: !Below(a, a)
    ensures forall a: Key, b: Key {:trigger Below(a, b)} :: Below(a, b) || a == b || Below(b, a)
    ensures forall a: Key, b: Key, c: Key {:trigger Below(a, b), Below(b, c)} ::
              Below(a, b) && Below(b, c) ==> Below(a, c)
  {
    forall a: Key ensures !Below(a, a) { BelowIrreflexive(a); }
    forall a: Key, b: Key ensures Below(a, b) || a == b || Below(b, a) { BelowTotal(a, b); }
    forall a: Key, b: Key, c: Key | Below(a, b) && Below(b, c) ensures Below(a, c) {
      BelowTransitive(a, b, c);
    }
  }

  const MAX_UINT64: nat := 0xFFFF_FFFF_FFFF_FFFF

  /** Where a value lives: file, byte offset, byte length. */
  datatype Pointer = Pointer(fileId: nat, offset: nat, length: nat)

  predicate IsTombstone(p: Pointer) {
    p.length == 0 && p.offset == MAX_UINT64
  }

  /** What a caller sees of a stored pointer: a tombstone counts as absent. */
  function Live(found: Option<Pointer>): Option<Pointer> {
    if found.Some? && IsTombstone(found.value) then None else found
  }

  function OrElse<T>(first: Option<T>, second: Option<T>): Option<T> {
    if first.Some? then first else second
  }
}
