/** Walking a table in key order, and the round trip of a whole table. */
module TableIterator {
  import opened Keys
  import opened Codec
  import opened Lsm
  import opened Block
  import opened Table
  import opened TableReader
  import opened Cache
  import opened Lookup
  import TableWriter

  /** A place in the table: entry `j` of block `i`. */
  ghost predicate IsPlace(blocks: Blocks, i: nat, j: nat) {
    i < |blocks| && j < |blocks[i]|
  }

  /** Everything before entry `n` is below `target`. */
  ghost predicate AllBelow(blocks: Blocks, n: nat, target: Key) {
    n <= |Flatten(blocks)| && forall m :: 0 <= m < n ==> Below(Flatten(blocks)[m].key, target)
  }

  lemma PlaceInTable(blocks: Blocks, i: nat, j: nat)
    requires IsPlace(blocks, i, j)
    ensures First(blocks, i) + j < |Flatten(blocks)|
    ensures Flatten(blocks)[First(blocks, i) + j] == blocks[i][j].entry
    ensures j + 1 == |blocks[i]| ==> First(blocks, i) + j + 1 == First(blocks, i + 1)
    ensures j + 1 == |blocks[i]| && i + 1 == |blocks| ==> First(blocks, i) + j + 1 == |Flatten(blocks)|
  {
    FlattenAt(blocks, i, j);
    FlattenLength(blocks);
  }

  lemma BlocksBelow(blocks: Blocks, i: nat, target: Key)
    requires BlocksOk(blocks) && Sorted(Flatten(blocks)) && i <= |blocks|
    requires forall m :: 0 <= m < i ==> Below(LastKey(blocks[m]), target)
    ensures AllBelow(blocks, First(blocks, i), target)
  {
    hide Flatten, Sorted, Below, Sized, CellsOk;
    FlattenLength(blocks);
    if i < |blocks| { FirstMonotone(blocks, i, |blocks|); }
    forall n | 0 <= n < First(blocks, i) ensures Below(Flatten(blocks)[n].key, target) {
      var b, j := EntryInBlock(blocks, n);
      if b >= i { FirstAtLeast(blocks, i, b); }
      if j < |blocks[b]| - 1 {
        KeysAscend(blocks, b, j, b, |blocks[b]| - 1);
        BelowTransitive(blocks[b][j].entry.key, LastKey(blocks[b]), target);
      }
    }
  }

  lemma FirstAtLeast(blocks: Blocks, i: nat, b: nat)
    requires i <= b <= |blocks|
    ensures First(blocks, i) <= First(blocks, b)
  {
    if i < b { FirstMonotone(blocks, i, b); }
  }

  lemma OneMoreBelow(blocks: Blocks, i: nat, j: nat, target: Key)
    requires IsPlace(blocks, i, j) && AllBelow(blocks, First(blocks, i) + j, target)
    requires Below(blocks[i][j].entry.key, target)
    ensures AllBelow(blocks, First(blocks, i) + j + 1, target)
  {
    hide Flatten, Below;
    PlaceInTable(blocks, i, j);
  }

  /** The place after `(i, j)`, or none. */
  ghost function NextPlace(blocks: Blocks, i: nat, j: nat): Option<(nat, nat)>
    requires IsPlace(blocks, i, j)
  {
    if j + 1 < |blocks[i]| then Some((i, j + 1)) else if i + 1 < |blocks| then Some((i + 1, 0)) else None
  }

  /** How many entries come before a place; all of them before none. */
  ghost function Passed(blocks: Blocks, p: Option<(nat, nat)>): nat
    requires p.Some? ==> p.value.0 <= |blocks|
  {
    if p.Some? then First(blocks, p.value.0) + p.value.1 else |Flatten(blocks)|
  }

  lemma NextIsNext(blocks: Blocks, i: nat, j: nat)
    requires IsPlace(blocks, i, j)
    ensures Passed(blocks, NextPlace(blocks, i, j)) == First(blocks, i) + j + 1
  {
    hide Flatten;
    PlaceInTable(blocks, i, j);
  }

  /** A block's trailer, read as the iterator reads it. */
  lemma Trailer(cells: seq<Cell>)
    requires Sized(cells) && IsBlock(BlockBytes(cells), cells) && cells != []
    ensures var b := BlockBytes(cells);
            && |b| >= 4 && 0 < Word(b, |b| - 4) <= (|b| - 4) / 4 && |b| - 4 - 4 * Word(b, |b| - 4) == EntriesEnd(cells)
  {
    hide BlockBytes, Word, CellsBytes, WordsBytes;
    BlockParts(BlockBytes(cells), cells);
    assert CellOk(cells, 0);
    assert 0 in RestartCells(cells);
  }

  /** Decoding at a cell's offset with the previous key in hand. */
  lemma ParseHere(cells: seq<Cell>, j: nat, key: Key, value: Pointer)
    requires Sized(cells) && IsBlock(BlockBytes(cells), cells) && j < |cells|
             && (j > 0 ==> key == cells[j - 1].entry.key)
    ensures EntriesEnd(cells) <= |BlockBytes(cells)| && Offset(cells, j) < EntriesEnd(cells)
    ensures ParseEntry(BlockBytes(cells), Offset(cells, j), EntriesEnd(cells), key, value)
         == Decoded(cells[j].entry.key, cells[j].entry.ptr, Offset(cells, j + 1))
  {
    hide BlockBytes, ParseEntry;
    assert CellOk(cells, j);
    OffsetMonotone(cells, j, |cells|);
    ParseCell(BlockBytes(cells), cells, j, key, value);
  }

  ghost predicate Readable(block: Bytes) {
    |block| >= 4 && Word(block, |block| - 4) <= (|block| - 4) / 4
  }

  class SSTableIterator {
    const reader: SSTableReader
    const number: nat
    const cache: ShardedLRUCache
    ghost const disk: Slot -> Bytes
    var blockIdx: nat
    var block: Bytes
    var offset: nat
    var valid: bool
    var key: Key
    var value: Pointer

    /** The reader holds the table of `blocks`, behind a cache of what is on disk. */
    ghost predicate Over(blocks: Blocks)
      reads this, reader, cache, cache.shards
    {
      reader.Holds(blocks) && cache.Coherent(disk) && OnDisk(reader.file, reader.index, number, disk)
    }

    /** Standing at entry `j` of block `i` of the reader's table. */
    ghost predicate At(blocks: Blocks, i: nat, j: nat)
      reads this, reader, cache, cache.shards
    {
      && Over(blocks) && IsPlace(blocks, i, j) && Inside(blocks[i], j + 1)
      && valid && blockIdx == i && key == blocks[i][j].entry.key && value == blocks[i][j].entry.ptr
    }

    /** The block in memory holds `cells`, and the next cell to decode is number `j`. */
    ghost predicate Inside(cells: seq<Cell>, j: nat)
      reads this
    {
      && BlockOk(cells) && IsBlock(BlockBytes(cells), cells) && block == BlockBytes(cells)
      && j <= |cells| && offset == Offset(cells, j)
    }

    ghost predicate Standing(blocks: Blocks, p: Option<(nat, nat)>)
      reads this, reader, cache, cache.shards
    {
      if p.None? then Over(blocks) && !valid else At(blocks, p.value.0, p.value.1)
    }

    /** A valid iterator stands in a block with a readable trailer. */
    ghost predicate Sane()
      reads this, reader
    {
      valid ==> Readable(block) && blockIdx < |reader.index| && offset <= |block|
    }

    constructor (r: SSTableReader, n: nat, c: ShardedLRUCache, ghost d: Slot -> Bytes)
      ensures reader == r && number == n && cache == c && disk == d && !valid && Sane()
    {
      reader, number, cache, disk := r, n, c, d;
      blockIdx, block, offset, valid, key, value := 0, [], 0, false, [], Pointer(0, 0, 0);
    }

    /** Reads the block of an index entry through the cache; a file too short for it is an error. */
    method LoadBlock(idx: nat, ghost blocks: Blocks) returns (ok: bool)
      requires cache.Valid() && idx < |reader.index|
      modifies this`block, cache.shards
      ensures OnlyAdds(old(cache.Held()), cache.Held(), number)
      ensures cache.Valid() && (old(Over(blocks)) ==> ok && Over(blocks) && Loaded(blocks, idx))
    {
      hide IsTableFile, IsBlock, BlockBytes, IndexOf, OnDisk, OnlyAdds;
      if Over(blocks) { Located(reader.file, blocks, reader.hashes, reader.bits, idx); }
      var read := ReadBlock(reader, number, cache, idx, disk);
      if read.None? { return false; }
      block := read.value;
      ok := true;
    }

    /** The block in memory is block `idx` of the table. */
    ghost predicate Loaded(blocks: Blocks, idx: nat)
      reads this
    {
      && idx < |blocks| && BlockOk(blocks[idx]) && IsBlock(BlockBytes(blocks[idx]), blocks[idx])
      && block == BlockBytes(blocks[idx])
    }

    /** Decodes the entry at the current offset. */
    method ParseCurrent(ghost cells: seq<Cell>, ghost j: nat) returns (ok: bool)
      modifies this`offset, this`valid, this`key, this`value
      ensures old(Inside(cells, j)) && j < |cells| && (j > 0 ==> old(key) == cells[j - 1].entry.key) ==>
                ok && Inside(cells, j + 1) && valid && key == cells[j].entry.key && value == cells[j].entry.ptr
      ensures ok && valid ==> Readable(block) && old(offset) < offset <= |block|
    {
      hide IsBlock, BlockBytes, ParseEntry, Word, Offset, EntriesEnd;
      ghost var good := Inside(cells, j) && j < |cells| && (j > 0 ==> key == cells[j - 1].entry.key);
      if good {
        Trailer(cells);
        ParseHere(cells, j, key, value);
      }
      if offset >= |block| || |block| < 4 {
        valid := false;
        return true;
      }
      var count := Word(block, |block| - 4);
      if count == 0 || count > (|block| - 4) / 4 { return false; }
      var end := |block| - 4 - 4 * count;
      if offset >= end {
        valid := false;
        return true;
      }
      var e := ParseEntry(block, offset, end, key, value);
      if e.Corrupt? { return false; }
      key, value, offset, valid := e.key, e.ptr, e.next, true;
      ok := true;
    }

    /** Goes to the first entry. */
    method SeekToFirst(ghost blocks: Blocks) returns (ok: bool)
      requires cache.Valid()
      modifies this, cache.shards
      ensures cache.Valid() && OnlyAdds(old(cache.Held()), cache.Held(), number)
      ensures old(Over(blocks)) ==> ok && Standing(blocks, if blocks == [] then None else Some((0, 0)))
      ensures ok ==> Sane()
    {
      hide IsTableFile, IsBlock, BlockBytes, OnlyAdds;
      blockIdx, offset, valid := 0, 0, false;
      NothingAdded(cache.Held(), number);
      if Over(blocks) { IndexLength(reader.file, blocks, reader.hashes, reader.bits); }
      if reader.index == [] { return true; }
      ok := Enter(0, blocks);
    }

    /** Loads block `idx` and decodes its first entry. */
    method Enter(idx: nat, ghost blocks: Blocks) returns (ok: bool)
      requires cache.Valid() && idx < |reader.index|
      modifies this, cache.shards
      ensures cache.Valid() && OnlyAdds(old(cache.Held()), cache.Held(), number)
      ensures old(Over(blocks)) ==> ok && At(blocks, idx, 0)
      ensures ok ==> Sane() && blockIdx == idx
    {
      hide IsTableFile, IsBlock, BlockBytes, OnlyAdds;
      ok := LoadBlock(idx, blocks);
      if !ok { return; }
      blockIdx, offset := idx, 0;
      ok := ParseCurrent(if idx < |blocks| then blocks[idx] else [], 0);
    }

    /** Steps to the next entry, going on to the next block when this one is used up. */
    method Next(ghost blocks: Blocks, ghost i: nat, ghost j: nat) returns (ok: bool)
      requires cache.Valid() && Sane()
      modifies this, cache.shards
      ensures cache.Valid() && OnlyAdds(old(cache.Held()), cache.Held(), number)
      ensures old(At(blocks, i, j)) ==> ok && Standing(blocks, NextPlace(blocks, i, j))
      ensures !old(valid) ==> ok && !valid
      ensures ok ==> Sane()
      ensures ok && valid ==>
                || old(blockIdx) < blockIdx
                || (blockIdx == old(blockIdx) && |block| - offset < old(|block| - offset))
    {
      hide IsTableFile, IsBlock, BlockBytes, Word, Offset, EntriesEnd, OnlyAdds;
      NothingAdded(cache.Held(), number);
      if !valid { return true; }
      ghost var good := At(blocks, i, j);
      if good { StepFacts(blocks, i, j); }
      var end := |block| - 4 - 4 * Word(block, |block| - 4);
      if offset >= end {
        blockIdx, offset := blockIdx + 1, 0;
        if blockIdx < |reader.index| {
          ok := Enter(blockIdx, blocks);
        } else {
          valid := false;
          ok := true;
        }
      } else {
        ok := ParseCurrent(if good then blocks[i] else [], j + 1);
      }
    }

    lemma StepFacts(blocks: Blocks, i: nat, j: nat)
      requires At(blocks, i, j)
      ensures |reader.index| == |blocks| && |block| >= 4
      ensures var end := |block| - 4 - 4 * Word(block, |block| - 4);
              offset >= end <==> j + 1 == |blocks[i]|
    {
      hide IsTableFile, IsBlock, BlockBytes, Word;
      IndexLength(reader.file, blocks, reader.hashes, reader.bits);
      Trailer(blocks[i]);
      if j + 1 < |blocks[i]| { OffsetMonotone(blocks[i], j + 1, |blocks[i]|); }
    }

    lemma IndexMatches(blocks: Blocks)
      requires Over(blocks)
      ensures |reader.index| == |blocks|
    {
      IndexLength(reader.file, blocks, reader.hashes, reader.bits);
    }

    /** Goes to the first entry at or above `target`. */
    method Seek(target: Key, ghost blocks: Blocks) returns (ok: bool, ghost i: nat, ghost j: nat)
      requires cache.Valid()
      modifies this, cache.shards
      ensures cache.Valid()
      ensures old(Over(blocks)) && Sorted(Flatten(blocks)) ==> ok && Sought(blocks, i, j, target)
    {
      hide IsTableFile, Flatten, Sorted, Below, AllBelow, At, NextPlace, Seeking, Inside, Opened, First, IsPlace;
      i, j := 0, 0;
      ghost var good := Over(blocks) && Sorted(Flatten(blocks));
      if good { IndexMatches(blocks); }
      if reader.index == [] {
        valid := false;
        if good { NothingBelow(blocks, target); SeekOn(blocks, None, target); }
        return true, 0, 0;
      }
      var b := SeekBlock(target, blocks, good);
      ok := Enter(b, blocks);
      if !ok { return; }
      if good { SeekOn(blocks, Some((b as nat, 0)), target); }
      ok, i, j := Scan(target, blocks, good, b);
    }

    /** Steps on until the target is reached or the table ends. */
    method Scan(target: Key, ghost blocks: Blocks, ghost good: bool, ghost b: nat)
      returns (ok: bool, ghost i: nat, ghost j: nat)
      requires cache.Valid() && Sane() && (good ==> Seeking(blocks, b, 0, target))
      modifies this, cache.shards
      ensures cache.Valid()
      ensures good ==> ok && Sought(blocks, i, j, target)
    {
      hide IsTableFile, Flatten, Below, AllBelow, At, NextPlace, Seeking, Inside;
      ok, i, j := true, b, 0;
      while valid && Below(key, target)
        invariant cache.Valid() && Sane() && ok
        invariant good ==> Seeking(blocks, i, j, target)
        decreases valid, if valid then |reader.index| - blockIdx else 0, if valid then |block| - offset else 0
      {
        if good { SeekStep(blocks, i, j, target); }
        ok := Next(blocks, i, j);
        if !ok { return; }
        if good {
          ghost var p := NextPlace(blocks, i, j);
          SeekOn(blocks, p, target);
          if p.Some? { i, j := p.value.0, p.value.1; }
        }
      }
    }

    lemma SeekOn(blocks: Blocks, p: Option<(nat, nat)>, target: Key)
      requires Standing(blocks, p) && AllBelow(blocks, Passed(blocks, p), target)
      ensures if p.Some? then Seeking(blocks, p.value.0, p.value.1, target) else !valid && Seeking(blocks, 0, 0, target)
      ensures p.None? ==> forall i, j :: Seeking(blocks, i, j, target)
    {
      hide IsTableFile, Flatten, Below, AllBelow;
    }

    /** The scan of `Seek`: everything passed so far is below the target. */
    ghost predicate Seeking(blocks: Blocks, i: nat, j: nat, target: Key)
      reads this, reader, cache, cache.shards
    {
      if valid then At(blocks, i, j) && AllBelow(blocks, First(blocks, i) + j, target)
      else Over(blocks) && AllBelow(blocks, |Flatten(blocks)|, target)
    }

    /** `Seek` is done: at the first entry not below the target, or past the end. */
    ghost predicate Sought(blocks: Blocks, i: nat, j: nat, target: Key)
      reads this, reader, cache, cache.shards
    {
      Seeking(blocks, i, j, target) && (valid ==> AtMost(target, key))
    }

    lemma SeekStep(blocks: Blocks, i: nat, j: nat, target: Key)
      requires Seeking(blocks, i, j, target) && valid && Below(key, target)
      ensures IsPlace(blocks, i, j)
      ensures At(blocks, i, j) && AllBelow(blocks, Passed(blocks, NextPlace(blocks, i, j)), target)
    {
      hide IsTableFile, Flatten, Below, AllBelow, NextPlace, Opened, Inside, First;
      OneMoreBelow(blocks, i, j, target);
      NextIsNext(blocks, i, j);
    }

    /** Binary search of the index: the first block that reaches the target, or the last block. */
    method SeekBlock(target: Key, ghost blocks: Blocks, ghost good: bool) returns (b: nat)
      requires reader.index != []
      requires good ==> Over(blocks) && Sorted(Flatten(blocks))
      ensures b < |reader.index|
      ensures good ==> b < |blocks| && AllBelow(blocks, First(blocks, b), target)
    {
      hide IsTableFile, Flatten, Sorted, Below, BlockBytes, AllBelow;
      var index := reader.index;
      var left, right := 0, |index| - 1;
      b := right;
      if good {
        OpenedShape(reader.file, index, reader.minKey, reader.maxKey, blocks, reader.hashes, reader.bits);
        IndexLength(reader.file, blocks, reader.hashes, reader.bits);
      }
      while left <= right
        invariant 0 <= left <= right + 1 <= |index| && b < |index|
        invariant b == right + 1 || (b == right == |index| - 1)
        invariant good ==> forall m :: 0 <= m < left ==> Below(LastKey(blocks[m]), target)
        decreases right - left + 1
      {
        var mid := left + (right - left) / 2;
        if Below(index[mid].maxKey, target) {
          if good { LastKeysBelow(blocks, mid, target); }
          left := mid + 1;
        } else {
          b := mid;
          if mid == 0 { break; }
          right := mid - 1;
        }
      }
      if good { BlocksBelow(blocks, b, target); }
    }
  }

  lemma Located(file: Bytes, blocks: Blocks, hashes: nat, bits: Bytes, i: nat)
    requires IsTableFile(file, blocks, hashes, bits) && i < |IndexOf(blocks)|
    ensures i < |blocks| && BlockOk(blocks[i]) && IsBlock(BlockBytes(blocks[i]), blocks[i])
    ensures var e := IndexOf(blocks)[i];
            e.offset + e.length <= |file| && file[e.offset..e.offset + e.length] == BlockBytes(blocks[i])
  {
    hide IsBlock, BlockBytes, Payload, Footer;
    BlockAt(file, blocks, hashes, bits, i);
  }

  lemma NothingBelow(blocks: Blocks, target: Key)
    requires blocks == []
    ensures AllBelow(blocks, |Flatten(blocks)|, target)
  {
  }

  /** Walks a table from its first entry to its last. */
  method ReadAll(reader: SSTableReader, number: nat, cache: ShardedLRUCache, ghost blocks: Blocks,
                 ghost disk: Slot -> Bytes)
    returns (ok: bool, es: seq<Entry>)
    requires cache.Valid()
    modifies cache.shards
    ensures cache.Valid() && OnlyAdds(old(cache.Held()), cache.Held(), number)
    ensures reader.Holds(blocks) && old(cache.Coherent(disk)) && OnDisk(reader.file, reader.index, number, disk) ==>
              ok && es == Flatten(blocks) && cache.Coherent(disk)
  {
    hide IsTableFile, Flatten, NextPlace, Read, OnDisk, OnlyAdds;
    es := [];
    var it := new SSTableIterator(reader, number, cache, disk);
    ghost var good := it.Over(blocks);
    ok := it.SeekToFirst(blocks);
    if !ok { return; }
    ghost var p: Option<(nat, nat)> := if blocks == [] then None else Some((0, 0));
    if good { ReadNone(blocks, p); }
    while it.valid
      invariant cache.Valid() && it.Sane() && fresh(it) && ok && OnlyAdds(old(cache.Held()), cache.Held(), number)
      invariant good ==> it.Standing(blocks, p) && Read(blocks, p, es)
      decreases it.valid, if it.valid then |reader.index| - it.blockIdx else 0,
                if it.valid then |it.block| - it.offset else 0
    {
      ghost var i: nat, j: nat := if p.Some? then p.value.0 else 0, if p.Some? then p.value.1 else 0;
      if good { ReadOne(blocks, i, j, es); }
      es := es + [Entry(it.key, it.value)];
      ghost var held := cache.Held();
      ok := it.Next(blocks, i, j);
      MoreAdded(old(cache.Held()), held, cache.Held(), number);
      if !ok { return; }
      if good { p := NextPlace(blocks, i, j); }
    }
    if good { ReadEverything(blocks, es); }
  }

  ghost predicate Read(blocks: Blocks, p: Option<(nat, nat)>, es: seq<Entry>) {
    && (p.Some? ==> p.value.0 <= |blocks|) && Passed(blocks, p) <= |Flatten(blocks)|
    && es == Flatten(blocks)[..Passed(blocks, p)]
  }

  lemma ReadNone(blocks: Blocks, p: Option<(nat, nat)>)
    requires p == if blocks == [] then None else Some((0, 0))
    ensures Read(blocks, p, [])
  {
  }

  lemma ReadEverything(blocks: Blocks, es: seq<Entry>)
    ensures Read(blocks, None, es) ==> es == Flatten(blocks)
  {
  }

  lemma ReadOne(blocks: Blocks, i: nat, j: nat, es: seq<Entry>)
    requires IsPlace(blocks, i, j) && Read(blocks, Some((i, j)), es)
    ensures Read(blocks, NextPlace(blocks, i, j), es + [blocks[i][j].entry])
  {
    hide Flatten;
    PlaceInTable(blocks, i, j);
    NextIsNext(blocks, i, j);
  }

  // ------------------------------------------------------------ end to end

  /** A written table, opened and searched, answers as the entries it was written from. */
  method WriteThenGet(entries: seq<Entry>, hashes: nat, bits: Bytes, k: Key) returns (size: nat, r: Answer)
    requires (forall e :: e in entries ==> TableWriter.EntryFits(e)) && hashes < TWO32
    ensures Sorted(entries) && size < TWO32 ==> r == AnswerOf(Find(entries, k))
  {
    hide Sorted, Find, Flatten, Payload, Footer, TableWriter.Packed, TableWriter.Pack;
    ghost var blocks := TableWriter.Pack(entries);
    var file := TableWriter.WriteTable(entries, hashes, bits);
    size := |file|;
    var reader := new SSTableReader();
    var ok := reader.Load(file, blocks, hashes, bits);
    r := reader.Get(k, blocks);
  }

  /** A written table, opened and walked, gives back exactly its entries in order. */
  method WriteThenRead(entries: seq<Entry>, hashes: nat, bits: Bytes, number: nat, cache: ShardedLRUCache,
                       ghost disk: Slot -> Bytes)
    returns (reader: SSTableReader, ok: bool, es: seq<Entry>)
    requires (forall e :: e in entries ==> TableWriter.EntryFits(e)) && hashes < TWO32
    requires cache.Valid() && cache.Coherent(disk)
    modifies cache.shards
    ensures |reader.file| < TWO32 && OnDisk(reader.file, reader.index, number, disk) ==> ok && es == entries
  {
    hide OnDisk, Flatten, Payload, Footer, TableWriter.Packed, TableWriter.Pack;
    ghost var blocks := TableWriter.Pack(entries);
    var file := TableWriter.WriteTable(entries, hashes, bits);
    reader := new SSTableReader();
    ok := reader.Load(file, blocks, hashes, bits);
    ok, es := ReadAll(reader, number, cache, blocks, disk);
  }
}
