/** The block cache: sixteen least-recently-used shards keyed by table and block offset. */
module Cache {
  import opened Keys
  import opened Codec

  const SHARDS: nat := 16

  /** A block's name: table number and offset. */
  type Slot = (nat, nat)

  ghost predicate Distinct(xs: seq<Slot>) {
    forall i, j :: 0 <= i < j < |xs| ==> xs[i] != xs[j]
  }

  function SizeAt(blocks: map<Slot, Bytes>, x: Slot): nat {
    if x in blocks then |blocks[x]| else 0
  }

  ghost function Total(xs: seq<Slot>, blocks: map<Slot, Bytes>): nat {
    if xs == [] then 0 else Total(xs[..|xs| - 1], blocks) + SizeAt(blocks, xs[|xs| - 1])
  }

  function Without(xs: seq<Slot>, x: Slot): seq<Slot> {
    if xs == [] then []
    else
      var front := Without(xs[..|xs| - 1], x);
      if xs[|xs| - 1] == x then front else front + [xs[|xs| - 1]]
  }

  lemma {:induction false} WithoutMembers(xs: seq<Slot>, x: Slot)
    ensures forall y :: y in Without(xs, x) <==> y in xs && y != x
    ensures Distinct(xs) ==> Distinct(Without(xs, x))
  {
    if xs != [] {
      WithoutMembers(xs[..|xs| - 1], x);
      assert xs == xs[..|xs| - 1] + [xs[|xs| - 1]];
      var front := Without(xs[..|xs| - 1], x);
      assert Distinct(xs) ==> forall i :: 0 <= i < |front| ==> front[i] in front && front[i] in xs[..|xs| - 1];
    }
  }

  lemma {:induction false} TotalAgrees(xs: seq<Slot>, a: map<Slot, Bytes>, b: map<Slot, Bytes>)
    requires forall x :: x in xs ==> SizeAt(a, x) == SizeAt(b, x)
    ensures Total(xs, a) == Total(xs, b)
  {
    if xs != [] {
      assert xs[|xs| - 1] in xs;
      TotalAgrees(xs[..|xs| - 1], a, b);
    }
  }

  lemma {:induction false} TotalFront(x: Slot, xs: seq<Slot>, blocks: map<Slot, Bytes>)
    ensures Total([x] + xs, blocks) == SizeAt(blocks, x) + Total(xs, blocks)
  {
    if xs == [] {
      assert [x] + xs == [x] && [x][..0] == [];
    } else {
      assert ([x] + xs)[..|xs|] == [x] + xs[..|xs| - 1];
      TotalFront(x, xs[..|xs| - 1], blocks);
    }
  }

  lemma {:induction false} TotalWithout(xs: seq<Slot>, x: Slot, blocks: map<Slot, Bytes>)
    requires Distinct(xs) && x in xs
    ensures Total(xs, blocks) == SizeAt(blocks, x) + Total(Without(xs, x), blocks)
  {
    var n := |xs| - 1;
    var front, last := xs[..n], xs[n];
    if last == x {
      assert x !in front;
      WithoutAbsent(front, x);
    } else {
      assert x in front;
      TotalWithout(front, x, blocks);
      var rest := Without(front, x);
      assert (rest + [last])[..|rest|] == rest;
    }
  }

  lemma {:induction false} WithoutAbsent(xs: seq<Slot>, x: Slot)
    requires x !in xs
    ensures Without(xs, x) == xs
  {
    if xs != [] {
      assert xs[|xs| - 1] in xs;
      WithoutAbsent(xs[..|xs| - 1], x);
    }
  }

  /** The list names exactly the cached blocks, each once. */
  ghost predicate Matches(list: seq<Slot>, blocks: map<Slot, Bytes>) {
    Distinct(list) && forall x :: x in list <==> x in blocks
  }

  /** Moving a listed key to the front keeps list, map and total in agreement. */
  lemma MovedToFront(list: seq<Slot>, blocks: map<Slot, Bytes>, x: Slot)
    requires Matches(list, blocks) && x in blocks
    ensures Matches([x] + Without(list, x), blocks) && Total([x] + Without(list, x), blocks) == Total(list, blocks)
  {
    WithoutMembers(list, x);
    TotalWithout(list, x, blocks);
    TotalFront(x, Without(list, x), blocks);
  }

  lemma Inserted(list: seq<Slot>, blocks: map<Slot, Bytes>, x: Slot, b: Bytes)
    requires Matches(list, blocks) && x !in blocks
    ensures Matches([x] + list, blocks[x := b]) && Total([x] + list, blocks[x := b]) == |b| + Total(list, blocks)
  {
    TotalFront(x, list, blocks[x := b]);
    TotalAgrees(list, blocks, blocks[x := b]);
  }

  /** Dropping the last listed block. */
  lemma Evicted(list: seq<Slot>, blocks: map<Slot, Bytes>)
    requires Matches(list, blocks) && list != []
    ensures var front, last := list[..|list| - 1], list[|list| - 1];
            && last in blocks && Matches(front, blocks - {last})
            && Total(list, blocks) == Total(front, blocks - {last}) + |blocks[last]|
  {
    var front, last := list[..|list| - 1], list[|list| - 1];
    assert list == front + [last] && last in list;
    forall x ensures x in front <==> x in blocks - {last} {
      assert x in list <==> x in front || x == last;
    }
    TotalAgrees(front, blocks, blocks - {last});
  }

  ghost predicate Submap(a: map<Slot, Bytes>, b: map<Slot, Bytes>) {
    forall x :: x in a ==> x in b && a[x] == b[x]
  }

  lemma Listed(list: seq<Slot>, blocks: map<Slot, Bytes>, x: Slot)
    requires Matches(list, blocks)
    ensures x in list <==> x in blocks
  {
  }

  lemma Refreshed(list: seq<Slot>, blocks: map<Slot, Bytes>, x: Slot, b: Bytes)
    requires Matches(list, blocks) && x in blocks
    ensures Matches([x] + Without(list, x), blocks[x := b])
    ensures |b| == |blocks[x]| ==> Total([x] + Without(list, x), blocks[x := b]) == Total(list, blocks)
  {
    MovedToFront(list, blocks, x);
    if |b| == |blocks[x]| { TotalAgrees([x] + Without(list, x), blocks, blocks[x := b]); }
  }

  lemma TotalSub(list: seq<Slot>, a: map<Slot, Bytes>, b: map<Slot, Bytes>)
    requires Matches(list, a) && Submap(a, b)
    ensures Total(list, a) == Total(list, b)
  {
    TotalAgrees(list, a, b);
  }

  lemma NothingTotal(blocks: map<Slot, Bytes>)
    ensures Total([], blocks) == 0
  {
  }

  /** The counter is a 64-bit unsigned integer. */
  function Add64(a: nat, n: nat): nat {
    (a + n) % TWO64
  }

  function Sub64(a: nat, n: nat): nat {
    (a + TWO64 - n % TWO64) % TWO64
  }

  lemma Add64Exact(a: nat, n: nat)
    requires a + n < TWO64
    ensures Add64(a, n) == a + n
  {
  }

  lemma Sub64Exact(a: nat, n: nat)
    requires n <= a < TWO64
    ensures Sub64(a, n) == a - n
  {
  }

  class LRUShard {
    const capacity: nat
    var size: nat
    var list: seq<Slot>
    var blocks: map<Slot, Bytes>

    ghost predicate Valid()
      reads this
    {
      Matches(list, blocks)
    }

    /** The size counter is the total of the cached blocks. */
    ghost predicate Accurate()
      reads this
    {
      size == Total(list, blocks) < TWO64
    }

    constructor (capacity: nat)
      ensures Valid() && Accurate() && list == [] && blocks == map[] && size == 0 && this.capacity == capacity
    {
      this.capacity, size, list, blocks := capacity, 0, [], map[];
    }

    method Get(x: Slot) returns (r: Option<Bytes>)
      requires Valid()
      modifies this`list
      ensures Valid() && (old(Accurate()) ==> Accurate())
      ensures r == if x in blocks then Some(blocks[x]) else None
      ensures list == if x in blocks then [x] + Without(old(list), x) else old(list)
    {
      if x !in blocks { return None; }
      MovedToFront(list, blocks, x);
      list := [x] + Without(list, x);
      r := Some(blocks[x]);
    }

    /** Drops blocks from the cold end while the counter is over capacity. */
    method Evict()
      requires Valid()
      modifies this`size, this`list, this`blocks
      ensures Valid() && list <= old(list) && Submap(blocks, old(blocks))
      ensures old(Accurate()) ==> Accurate() && size <= capacity
      ensures old(Accurate()) && list != old(list) ==> Total(old(list)[..|list| + 1], old(blocks)) > capacity
    {
      hide Matches, Total, Sub64;
      ghost var list0, blocks0, exact := list, blocks, Accurate();
      while size > capacity && list != []
        invariant Valid() && list <= list0 && Submap(blocks, blocks0) && (exact ==> Accurate())
        invariant exact && list != list0 ==> Total(list0[..|list| + 1], blocks0) > capacity
        decreases |list|
      {
        var oldest := list[|list| - 1];
        Evicted(list, blocks);
        if exact {
          Sub64Exact(size, |blocks[oldest]|);
          TotalSub(list, blocks, blocks0);
          assert list0[..|list|] == list;
        }
        if oldest in blocks {
          size := Sub64(size, |blocks[oldest]|);
          blocks := blocks - {oldest};
        }
        list := list[..|list| - 1];
      }
      NothingTotal(blocks);
    }

    /** Caches a block and drops the least recently used ones that no longer fit. A block put again keeps
        its place in the size total, so the total stays right when both have the same size. */
    method Put(x: Slot, b: Bytes)
      requires Valid()
      modifies this`size, this`list, this`blocks
      ensures Valid() && list <= [x] + Without(old(list), x) && Submap(blocks, old(blocks)[x := b])
      ensures old(Fits(x, b)) ==> Accurate() && (x !in old(blocks) ==> size <= capacity)
      ensures x in old(blocks) ==>
                size == old(size) && list == [x] + Without(old(list), x) && blocks == old(blocks)[x := b]
    {
      hide Matches, Total, Add64;
      if x in blocks {
        Refreshed(list, blocks, x, b);
        blocks, list := blocks[x := b], [x] + Without(list, x);
      } else {
        Inserted(list, blocks, x, b);
        Listed(list, blocks, x);
        WithoutAbsent(list, x);
        if Fits(x, b) { Add64Exact(size, |b|); }
        list, blocks, size := [x] + list, blocks[x := b], Add64(size, |b|);
        Evict();
      }
    }

    /** Counting is exact so far and the new block does not upset it. */
    ghost predicate Fits(x: Slot, b: Bytes)
      reads this
    {
      Accurate() && (if x in blocks then |b| == |blocks[x]| else Total(list, blocks) + |b| < TWO64)
    }
  }
}
