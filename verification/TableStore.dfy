/** Tables written, removed and looked up through one cache over a store's life: since a number is never used
    twice, a cached block is never out of date. */
module TableStore {
  import opened Keys
  import opened Codec
  import opened Lsm
  import opened Block
  import opened Table
  import opened TableReader
  import opened Cache
  import opened Bloom
  import opened Lookup
  import opened TableIterator
  import TableWriter

  /** What was written under a number. */
  datatype Stored = Stored(entries: seq<Entry>, hashes: nat, bits: Bytes)

  ghost predicate AllFit(es: seq<Entry>) {
    forall e :: e in es ==> TableWriter.EntryFits(e)
  }

  ghost function BlocksOf(t: Stored): (blocks: Blocks)
    requires AllFit(t.entries)
    ensures BlocksOk(blocks) && Flatten(blocks) == t.entries
  {
    TableWriter.Pack(t.entries)
  }

  /** The block that starts at an offset, looked for from block `i` on. */
  ghost function BlockFrom(blocks: Blocks, off: nat, i: nat): Bytes
    requires BlocksOk(blocks)
    decreases |blocks| - i
  {
    if i >= |blocks| then []
    else if BlockStart(blocks, i) == off then BlockBytes(blocks[i])
    else BlockFrom(blocks, off, i + 1)
  }

  /** Every block ever written, by table number and offset. */
  ghost function DiskOf(ever: map<nat, Stored>): Slot -> Bytes {
    (x: Slot) => if x.0 in ever && AllFit(ever[x.0].entries) then BlockFrom(BlocksOf(ever[x.0]), x.1, 0) else []
  }

  lemma {:induction false} StartsApart(blocks: Blocks, i: nat, j: nat)
    requires BlocksOk(blocks) && i < j <= |blocks|
    ensures BlockStart(blocks, i) < BlockStart(blocks, j)
  {
    hide BlockBytes;
    BlockNotEmpty(blocks[j - 1]);
    if i < j - 1 { StartsApart(blocks, i, j - 1); }
  }

  lemma BlockNotEmpty(cells: seq<Cell>)
    requires Sized(cells)
    ensures |BlockBytes(cells)| > 0
  {
    hide CellsBytes, WordsBytes, Restarts;
  }

  lemma {:induction false} FoundFrom(blocks: Blocks, i: nat, from: nat)
    requires BlocksOk(blocks) && from <= i < |blocks|
    ensures BlockFrom(blocks, BlockStart(blocks, i), from) == BlockBytes(blocks[i])
    decreases i - from
  {
    hide BlockBytes;
    if from < i {
      StartsApart(blocks, from, i);
      FoundFrom(blocks, i, from + 1);
    }
  }

  /** An opened table of the store is on that disk under its number. */
  lemma StoredOnDisk(file: Bytes, index: seq<IndexEntry>, ever: map<nat, Stored>, n: nat)
    requires n in ever && AllFit(ever[n].entries) && index == IndexOf(BlocksOf(ever[n]))
    requires IsTableFile(file, BlocksOf(ever[n]), ever[n].hashes, ever[n].bits)
    ensures OnDisk(file, index, n, DiskOf(ever))
  {
    hide IsTableFile, BlockBytes, BlockFrom, IsBlock, AllFit, BlockStart, BlocksOf, Flatten, BlocksOk;
    var blocks := BlocksOf(ever[n]);
    forall i | 0 <= i < |index| ensures EntryOnDisk(file, index[i], n, DiskOf(ever)) {
      BlockAt(file, blocks, ever[n].hashes, ever[n].bits, i);
      FoundFrom(blocks, i, 0);
    }
  }

  /** All cached blocks are of tables written at some time. */
  ghost predicate Known(held: seq<map<Slot, Bytes>>, ever: map<nat, Stored>) {
    forall i :: 0 <= i < |held| ==> AllKnown(held[i], ever)
  }

  ghost predicate AllKnown(blocks: map<Slot, Bytes>, ever: map<nat, Stored>) {
    forall x :: x in blocks ==> x.0 in ever
  }

  /** A new number changes nothing for the blocks already cached. */
  lemma NewTableHarmless(blocks: map<Slot, Bytes>, ever: map<nat, Stored>, n: nat, t: Stored)
    requires AllKnown(blocks, ever) && n !in ever && ShardCoherent(blocks, DiskOf(ever))
    ensures ShardCoherent(blocks, DiskOf(ever[n := t])) && AllKnown(blocks, ever[n := t])
  {
    hide AllFit, BlocksOf, BlockFrom;
  }

  lemma StillKnown(before: seq<map<Slot, Bytes>>, after: seq<map<Slot, Bytes>>, ever: map<nat, Stored>, n: nat)
    requires OnlyAdds(before, after, n) && Known(before, ever) && n in ever
    ensures Known(after, ever)
  {
    forall i | 0 <= i < |after| ensures AllKnown(after[i], ever) {
      assert KeysFrom(before[i], after[i], n) && AllKnown(before[i], ever);
    }
  }

  ghost predicate FilterFits(t: Stored, hash: (Key) -> (nat, nat)) {
    var keys := KeysOf(t.entries);
    t.bits != [] ==> Covers(t.bits, hash, t.hashes, keys, |keys|)
  }

  /** A table on disk: its file is what was written under its number. */
  ghost predicate FileOk(file: Bytes, t: Stored, hash: (Key) -> (nat, nat)) {
    && AllFit(t.entries) && Sorted(t.entries) && FilterFits(t, hash)
    && IsTableFile(file, BlocksOf(t), t.hashes, t.bits)
  }

  /** The file of a table with its filter. */
  method BuildTable(entries: seq<Entry>, byteSize: nat, count: nat, hash: (Key) -> (nat, nat))
    returns (file: Bytes, hashes: nat, bits: Bytes)
    requires AllFit(entries) && Sorted(entries) && byteSize > 0 && 0 < count < TWO32
    ensures |file| < TWO32 ==> FileOk(file, Stored(entries, hashes, bits), hash)
  {
    hide Sorted, Flatten, Payload, Footer, TableWriter.Packed, TableWriter.Pack, Covers;
    var filter := new BloomFilter(hash);
    var keys := seq(|entries|, i requires 0 <= i < |entries| => entries[i].key);
    filter.Build(keys, byteSize, count);
    assert KeysOf(entries) == keys;
    hashes, bits := filter.hashes, filter.bits;
    file := TableWriter.WriteTable(entries, hashes, bits);
  }

  class Store {
    var next: nat
    var files: map<nat, Bytes>
    const cache: ShardedLRUCache
    const hash: (Key) -> (nat, nat)
    ghost var ever: map<nat, Stored>

    ghost predicate Valid()
      reads this, cache, cache.shards
    {
      && cache.Valid() && cache.Coherent(DiskOf(ever)) && Known(cache.Held(), ever)
      && (forall n :: n in ever ==> n <= next)
      && (forall n :: n in files ==> n in ever && FileOk(files[n], ever[n], hash))
    }

    constructor (capacity: nat, slotHash: Slot -> nat, keyHash: (Key) -> (nat, nat))
      ensures Valid() && files == map[] && fresh(cache) && fresh(cache.shards)
    {
      var c := new ShardedLRUCache(capacity, slotHash);
      next, files, cache, hash, ever := 1, map[], c, keyHash, map[];
    }

    method NewFileNumber() returns (n: nat)
      requires Valid()
      modifies this`next
      ensures Valid() && n !in ever && n == next == old(next) + 1
    {
      hide FileOk, DiskOf, Known, ShardCoherent;
      next := next + 1;
      n := next;
    }

    /** Writes a table under a new number; one of 4 GiB or more is not kept. */
    method Write(entries: seq<Entry>, byteSize: nat, count: nat) returns (n: nat, kept: bool)
      requires Valid() && AllFit(entries) && Sorted(entries) && byteSize > 0 && 0 < count < TWO32
      modifies this`next, this`files, this`ever
      ensures Valid() && n !in old(ever) && n in ever && ever[n].entries == entries && ever == old(ever)[n := ever[n]]
      ensures kept == (n in files) && files - {n} == old(files)
    {
      hide AllFit, Sorted, FileOk, DiskOf, Known, ShardCoherent;
      n := NewFileNumber();
      var file, hashes, bits := BuildTable(entries, byteSize, count, hash);
      ghost var t := Stored(entries, hashes, bits);
      kept := |file| < TWO32;
      NewTable(n, t);
      ever := ever[n := t];
      if kept { files := files[n := file]; }
    }

    /** A table under a number not used before leaves the cache coherent. */
    lemma NewTable(n: nat, t: Stored)
      requires Valid() && n !in ever
      ensures cache.Coherent(DiskOf(ever[n := t])) && Known(cache.Held(), ever[n := t])
    {
      hide DiskOf, ShardCoherent, AllKnown, FileOk;
      forall i | 0 <= i < |cache.shards|
        ensures ShardCoherent(cache.shards[i].blocks, DiskOf(ever[n := t])) && AllKnown(cache.Held()[i], ever[n := t])
      {
        NewTableHarmless(cache.Held()[i], ever, n, t);
      }
    }

    /** Removes a table file; its blocks may stay in the cache. */
    method Remove(n: nat)
      requires Valid()
      modifies this`files
      ensures Valid() && files == old(files) - {n}
    {
      hide FileOk, DiskOf, Known, ShardCoherent;
      files := files - {n};
    }

    /** Opens a table that is there. */
    method Open(n: nat) returns (reader: SSTableReader)
      requires Valid() && n in files
      ensures fresh(reader) && reader.file == files[n] && reader.Holds(BlocksOf(ever[n]))
      ensures reader.hashes == ever[n].hashes && reader.bits == ever[n].bits
      ensures OnDisk(reader.file, reader.index, n, DiskOf(ever))
    {
      hide IsTableFile, DiskOf, FilterFits, BlocksOf;
      reader := new SSTableReader();
      var ok := reader.Load(files[n], BlocksOf(ever[n]), ever[n].hashes, ever[n].bits);
      StoredOnDisk(reader.file, reader.index, ever, n);
    }

    /** Looks a key up in a table: filter, cache, block search. The answer is that of the entries written. */
    method LookUpIn(n: nat, k: Key) returns (r: Answer)
      requires Valid() && n in files
      modifies cache.shards
      ensures Valid() && r == AnswerOf(Find(ever[n].entries, k))
    {
      hide Sorted, Find, Flatten, DiskOf, Covers, IsTableFile, OnDisk, Opened;
      ghost var before := cache.Held();
      var reader := Open(n);
      var filter := LoadFilter(reader, hash);
      assert FilterOf(filter, BlocksOf(ever[n]));
      r := LookUp(reader, n, filter, cache, k, BlocksOf(ever[n]), DiskOf(ever));
      StillKnown(before, cache.Held(), ever, n);
    }

    /** Walks a table: the entries written, in order. */
    method ReadTable(n: nat) returns (ok: bool, es: seq<Entry>)
      requires Valid() && n in files
      modifies cache.shards
      ensures Valid() && ok && es == ever[n].entries
    {
      hide Sorted, Flatten, DiskOf, IsTableFile, OnDisk, Opened;
      ghost var before := cache.Held();
      var reader := Open(n);
      ok, es := ReadAll(reader, n, cache, BlocksOf(ever[n]), DiskOf(ever));
      StillKnown(before, cache.Held(), ever, n);
    }
  }
}
