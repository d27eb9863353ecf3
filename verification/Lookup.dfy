/** Table lookup as the store does it: filter first, blocks through the cache. */
module Lookup {
  import opened Keys
  import opened Codec
  import opened Lsm
  import opened Block
  import opened Table
  import opened TableReader
  import opened Cache
  import opened Bloom
  import TableWriter

  class ShardedLRUCache {
    const shards: seq<LRUShard>
    const hash: Slot -> nat

    ghost predicate Valid()
      reads this, shards
    {
      && |shards| == SHARDS && (forall i, j :: 0 <= i < j < |shards| ==> shards[i] != shards[j])
      && forall i :: 0 <= i < |shards| ==> shards[i].Valid()
    }

    /** Every cached block is what the disk holds under its name. */
    ghost predicate Coherent(disk: Slot -> Bytes)
      reads this, shards
    {
      forall i :: 0 <= i < |shards| ==> ShardCoherent(shards[i].blocks, disk)
    }

    /** What each shard holds. */
    ghost function Held(): seq<map<Slot, Bytes>>
      reads this, shards
    {
      seq(|shards|, i requires 0 <= i < |shards| reads shards => shards[i].blocks)
    }

    constructor (capacity: nat, hash: Slot -> nat)
      ensures Valid() && fresh(shards) && |shards| == 16
      ensures forall i :: 0 <= i < |shards| ==> shards[i].blocks == map[] && shards[i].capacity == capacity / 16
    {
      this.hash := hash;
      var made: seq<LRUShard> := [];
      while |made| < SHARDS
        invariant |made| <= SHARDS && (forall i, j :: 0 <= i < j < |made| ==> made[i] != made[j])
        invariant forall i :: 0 <= i < |made| ==> fresh(made[i]) && made[i].Valid() && made[i].blocks == map[]
        invariant forall i :: 0 <= i < |made| ==> made[i].capacity == capacity / 16
      {
        var shard := new LRUShard(capacity / SHARDS);
        made := made + [shard];
      }
      shards := made;
    }

    method Get(x: Slot, ghost disk: Slot -> Bytes) returns (r: Option<Bytes>)
      requires Valid()
      modifies shards
      ensures Valid() && (old(Coherent(disk)) ==> Coherent(disk) && (r.Some? ==> r.value == disk(x)))
      ensures forall i :: 0 <= i < |shards| ==> shards[i].blocks == old(shards[i].blocks)
    {
      hide Matches;
      var i := hash(x) % SHARDS;
      ghost var before := shards[i].blocks;
      assert old(Coherent(disk)) ==> ShardCoherent(before, disk);
      r := shards[i].Get(x);
      assert shards[i].blocks == before;
    }

    method Put(x: Slot, b: Bytes, ghost disk: Slot -> Bytes)
      requires Valid()
      modifies shards
      ensures Valid() && (old(Coherent(disk)) && b == disk(x) ==> Coherent(disk))
      ensures forall i :: 0 <= i < |shards| ==> shards[i].blocks.Keys <= old(shards[i].blocks).Keys + {x}
    {
      hide Matches;
      var i := hash(x) % SHARDS;
      ghost var before := shards[i].blocks;
      assert old(Coherent(disk)) ==> ShardCoherent(before, disk);
      shards[i].Put(x, b);
      assert ShardCoherent(before, disk) && b == disk(x) ==> ShardCoherent(shards[i].blocks, disk);
    }
  }

  ghost predicate ShardCoherent(blocks: map<Slot, Bytes>, disk: Slot -> Bytes) {
    forall x :: x in blocks ==> blocks[x] == disk(x)
  }

  /** The disk holds table `number`'s blocks under its name: numbers are never used again. */
  ghost predicate OnDisk(file: Bytes, index: seq<IndexEntry>, number: nat, disk: Slot -> Bytes) {
    forall i :: 0 <= i < |index| ==> EntryOnDisk(file, index[i], number, disk)
  }

  ghost predicate EntryOnDisk(file: Bytes, e: IndexEntry, number: nat, disk: Slot -> Bytes) {
    e.offset + e.length <= |file| ==> disk((number, e.offset)) == file[e.offset..e.offset + e.length]
  }

  ghost predicate SortedTable(reader: SSTableReader, blocks: Blocks)
    reads reader
  {
    reader.Holds(blocks) && Sorted(Flatten(blocks))
  }

  /** Only blocks of table `number` have been added to what the shards held. */
  ghost predicate OnlyAdds(before: seq<map<Slot, Bytes>>, after: seq<map<Slot, Bytes>>, number: nat) {
    |before| == |after| && forall i :: 0 <= i < |after| ==> KeysFrom(before[i], after[i], number)
  }

  ghost predicate KeysFrom(before: map<Slot, Bytes>, after: map<Slot, Bytes>, number: nat) {
    forall x :: x in after ==> x.0 == number || x in before
  }

  lemma NothingAdded(held: seq<map<Slot, Bytes>>, number: nat)
    ensures OnlyAdds(held, held, number)
  {
  }

  lemma MoreAdded(a: seq<map<Slot, Bytes>>, b: seq<map<Slot, Bytes>>, c: seq<map<Slot, Bytes>>, number: nat)
    requires OnlyAdds(a, b, number) && OnlyAdds(b, c, number)
    ensures OnlyAdds(a, c, number)
  {
    hide KeysFrom;
    forall i | 0 <= i < |c| ensures KeysFrom(a[i], c[i], number) {
      KeysAdded(a[i], b[i], c[i], number);
    }
  }

  lemma KeysAdded(a: map<Slot, Bytes>, b: map<Slot, Bytes>, c: map<Slot, Bytes>, number: nat)
    requires KeysFrom(a, b, number) && KeysFrom(b, c, number)
    ensures KeysFrom(a, c, number)
  {
  }

  /** The block of an index entry: from the cache, or from the file and then cached. */
  method ReadBlock(reader: SSTableReader, number: nat, cache: ShardedLRUCache, idx: nat, ghost disk: Slot -> Bytes)
    returns (block: Option<Bytes>)
    requires cache.Valid() && idx < |reader.index|
    modifies cache.shards
    ensures cache.Valid() && OnlyAdds(old(cache.Held()), cache.Held(), number)
    ensures old(cache.Coherent(disk)) && OnDisk(reader.file, reader.index, number, disk) ==>
              cache.Coherent(disk) && BlockRead(reader.file, reader.index[idx], block)
  {
    hide ShardCoherent, LRUShard.Valid;
    var e := reader.index[idx];
    ghost var same := cache.Coherent(disk) && OnDisk(reader.file, reader.index, number, disk);
    assert same ==> EntryOnDisk(reader.file, e, number, disk);
    block := cache.Get((number, e.offset), disk);
    if block.None? {
      if e.offset + e.length > |reader.file| { return None; }
      block := Some(reader.file[e.offset..e.offset + e.length]);
      cache.Put((number, e.offset), block.value, disk);
    }
  }

  ghost predicate BlockRead(file: Bytes, e: IndexEntry, block: Option<Bytes>) {
    e.offset + e.length <= |file| ==> block == Some(file[e.offset..e.offset + e.length])
  }

  /** Point lookup with the block read through the cache. */
  method GetCached(reader: SSTableReader, number: nat, cache: ShardedLRUCache, k: Key, ghost blocks: Blocks,
                   ghost disk: Slot -> Bytes)
    returns (r: Answer)
    requires cache.Valid()
    modifies cache.shards
    ensures cache.Valid() && OnlyAdds(old(cache.Held()), cache.Held(), number)
    ensures old(cache.Coherent(disk)) && OnDisk(reader.file, reader.index, number, disk) ==>
              cache.Coherent(disk) && (SortedTable(reader, blocks) ==> r == AnswerOf(Find(Flatten(blocks), k)))
  {
    hide IsTableFile, Flatten, Find, Opened, Sorted, Below, BlocksOk, Candidate, IsSortedBlock, IndexOf, OnDisk;
    ghost var file, index := reader.file, reader.index;
    ghost var good := SortedTable(reader, blocks);
    if good { OpenedShape(file, index, reader.minKey, reader.maxKey, blocks, reader.hashes, reader.bits); }
    if Below(k, reader.minKey) || Below(reader.maxKey, k) {
      if good { OutOfRange(file, index, reader.minKey, reader.maxKey, blocks, reader.hashes, reader.bits, k); }
      return Miss;
    }
    var i := reader.LowerBound(reader.index, k, blocks, good);
    if good { Chosen(file, index, reader.minKey, reader.maxKey, blocks, reader.hashes, reader.bits, k, i); }
    if i == |reader.index| { return Miss; }
    var block := ReadBlock(reader, number, cache, i, disk);
    if block.None? { return Miss; }
    r := SearchBlock(block.value, k, if good then blocks[i] else []);
  }

  ghost function KeysOf(es: seq<Entry>): (ks: seq<Key>)
    ensures |ks| == |es| && forall i :: 0 <= i < |es| ==> ks[i] == es[i].key
  {
    seq(|es|, i requires 0 <= i < |es| => es[i].key)
  }

  /** The filter was built from the table's keys, or is empty. */
  ghost predicate FilterOf(filter: BloomFilter, blocks: Blocks)
    reads filter
  {
    var keys := KeysOf(Flatten(blocks));
    filter.bits != [] ==> Covers(filter.bits, filter.hash, filter.hashes, keys, |keys|)
  }

  /** A key the filter rules out is not in the table. */
  lemma RuledOut(filter: BloomFilter, blocks: Blocks, k: Key)
    requires FilterOf(filter, blocks) && !MayContain(filter.bits, filter.hash, filter.hashes, k)
    ensures Find(Flatten(blocks), k).None?
  {
    hide Flatten, Covers, MayContain;
    var es := Flatten(blocks);
    EmptyAdmits(filter, k);
    if m: nat :| m < |es| && es[m].key == k {
      NoFalseNegatives(filter.bits, filter.hash, filter.hashes, KeysOf(es), m);
    }
  }

  lemma EmptyAdmits(filter: BloomFilter, k: Key)
    ensures filter.bits == [] ==> MayContain(filter.bits, filter.hash, filter.hashes, k)
  {
  }

  /** A sorted table whose filter was built from its keys, behind a cache of its blocks. */
  ghost predicate Backed(reader: SSTableReader, number: nat, filter: BloomFilter, cache: ShardedLRUCache,
                         blocks: Blocks, disk: Slot -> Bytes)
    reads reader, filter, cache, cache.shards
  {
    && cache.Coherent(disk) && OnDisk(reader.file, reader.index, number, disk)
    && SortedTable(reader, blocks) && FilterOf(filter, blocks)
  }

  /** Through filter and cache, the answer is the table's own, and the cache stays coherent. */
  method LookUp(reader: SSTableReader, number: nat, filter: BloomFilter, cache: ShardedLRUCache, k: Key,
                ghost blocks: Blocks, ghost disk: Slot -> Bytes)
    returns (r: Answer)
    requires cache.Valid()
    modifies cache.shards
    ensures cache.Valid() && OnlyAdds(old(cache.Held()), cache.Held(), number)
    ensures old(cache.Coherent(disk)) && OnDisk(reader.file, reader.index, number, disk) ==> cache.Coherent(disk)
    ensures old(Backed(reader, number, filter, cache, blocks, disk)) ==> r == AnswerOf(Find(Flatten(blocks), k))
  {
    hide Flatten, Find, Opened, Sorted, MayContain, FilterOf, OnDisk;
    var maybe := filter.Query(k);
    if !maybe {
      if FilterOf(filter, blocks) { RuledOut(filter, blocks, k); }
      return Miss;
    }
    r := GetCached(reader, number, cache, k, blocks, disk);
  }

  /** The filter as read back from a table. */
  method LoadFilter(reader: SSTableReader, hash: (Key) -> (nat, nat)) returns (filter: BloomFilter)
    ensures fresh(filter) && filter.hash == hash && filter.bits == reader.bits
    ensures reader.bits != [] ==> filter.hashes == reader.hashes
  {
    filter := new BloomFilter(hash);
    if reader.bits != [] {
      filter.bits, filter.hashes := reader.bits, reader.hashes;
    }
  }

  /** Keys filtered, table written, opened, and looked up through the filter that was read back and an
      initially empty cache: the answer is that of the entries themselves. */
  method WriteThenLookUp(entries: seq<Entry>, byteSize: nat, count: nat, number: nat, hash: (Key) -> (nat, nat),
                         cache: ShardedLRUCache, k: Key, ghost disk: Slot -> Bytes)
    returns (reader: SSTableReader, r: Answer)
    requires (forall e :: e in entries ==> TableWriter.EntryFits(e)) && byteSize > 0 && 0 < count < TWO32
    requires cache.Valid() && cache.Coherent(disk)
    modifies cache.shards
    ensures Sorted(entries) && |reader.file| < TWO32 && OnDisk(reader.file, reader.index, number, disk) ==>
              r == AnswerOf(Find(entries, k))
  {
    hide Sorted, Find, Flatten, Payload, Footer, TableWriter.Packed, TableWriter.Pack, Covers, OnDisk;
    var built := new BloomFilter(hash);
    var keys := seq(|entries|, i requires 0 <= i < |entries| => entries[i].key);
    built.Build(keys, byteSize, count);
    ghost var blocks := TableWriter.Pack(entries);
    var file := TableWriter.WriteTable(entries, built.hashes, built.bits);
    reader := new SSTableReader();
    var ok := reader.Load(file, blocks, built.hashes, built.bits);
    var filter := LoadFilter(reader, hash);
    assert KeysOf(Flatten(blocks)) == keys;
    r := LookUp(reader, number, filter, cache, k, blocks, disk);
  }
}
