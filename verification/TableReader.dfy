/** Opening a table file and looking a key up in it. */
module TableReader {
  import opened Keys
  import opened Codec
  import opened Lsm
  import opened Block
  import opened Table
  import Crc

  const CHUNK: nat := 4096

  /** What a reader holds once a table of `blocks` is open. */
  ghost predicate Opened(file: Bytes, index: seq<IndexEntry>, minKey: Key, maxKey: Key, blocks: Blocks,
                         hashes: nat, bits: Bytes) {
    && IsTableFile(file, blocks, hashes, bits) && index == IndexOf(blocks)
    && RangeOf(blocks, minKey, maxKey)
  }

  /** A table's key range; an empty table's is empty keys. */
  ghost predicate RangeOf(blocks: Blocks, minKey: Key, maxKey: Key) {
    if blocks == [] then minKey == [] && maxKey == []
    else
      var last := blocks[|blocks| - 1];
      BlockOk(blocks[0]) && BlockOk(last) && minKey == blocks[0][0].entry.key && maxKey == LastKey(last)
  }

  lemma TableShape(file: Bytes, blocks: Blocks, hashes: nat, bits: Bytes)
    requires IsTableFile(file, blocks, hashes, bits)
    ensures BlocksOk(blocks)
  {
  }

  lemma OpenedShape(file: Bytes, index: seq<IndexEntry>, minKey: Key, maxKey: Key, blocks: Blocks,
                    hashes: nat, bits: Bytes)
    requires Opened(file, index, minKey, maxKey, blocks, hashes, bits)
    ensures BlocksOk(blocks) && index == IndexOf(blocks)
  {
  }

  /** The checksum of a file's payload, read in chunks. */
  method PayloadChecksum(file: Bytes, size: nat) returns (crc: bv32)
    requires size <= |file|
    ensures crc == Crc.Checksum(file[..size])
  {
    hide Crc.Checksum, Crc.Extend;
    crc := 0;
    var remaining := size;
    Crc.ChunkingIsInvisible([], []);
    assert file[..0] == [];
    while remaining > 0
      invariant 0 <= remaining <= size && crc == Crc.Checksum(file[..size - remaining])
    {
      var n := if remaining < CHUNK then remaining else CHUNK;
      var at := size - remaining;
      Crc.ChunkingIsInvisible(file[..at], file[at..at + n]);
      assert file[..at] + file[at..at + n] == file[..at + n];
      crc := Crc.Extend(crc, file[at..at + n]);
      remaining := remaining - n;
    }
  }

  // -------------------------------------------------------- reading the index

  datatype IndexParse = Short | Parsed(entry: IndexEntry, next: nat)

  function ParseIndexEntry(file: Bytes, off: nat): (r: IndexParse)
    ensures r.Parsed? ==> off + 12 <= r.next <= |file|
  {
    if off + 4 > |file| then Short
    else
      var size := Word(file, off);
      if off + 4 + size + 8 > |file| then Short
      else
        var p := off + 4 + size;
        Parsed(IndexEntry(file[off + 4..p], Word(file, p), Word(file, p + 4)), p + 8)
  }

  ghost predicate IndexFits(e: IndexEntry) {
    |e.maxKey| < TWO32 && e.offset < TWO32 && e.length < TWO32
  }

  lemma ParseIndexRoundTrip(file: Bytes, off: nat, e: IndexEntry)
    requires IndexFits(e) && off + 12 + |e.maxKey| <= |file|
    requires file[off..off + 12 + |e.maxKey|] == IndexEntryBytes(e)
    ensures ParseIndexEntry(file, off) == Parsed(e, off + 12 + |e.maxKey|)
  {
    hide U32, Value32;
    var s, size := IndexEntryBytes(e), |e.maxKey|;
    SliceWithin(file, off, off + 12 + size, s, 0, 4);
    SliceWithin(file, off, off + 12 + size, s, 4, 4 + size);
    SliceWithin(file, off, off + 12 + size, s, 4 + size, 8 + size);
    SliceWithin(file, off, off + 12 + size, s, 8 + size, 12 + size);
    assert s[0..4] == U32(size) && s[4..4 + size] == e.maxKey;
    assert s[4 + size..8 + size] == U32(e.offset) && s[8 + size..12 + size] == U32(e.length);
    RoundTrip32(size);
    RoundTrip32(e.offset);
    RoundTrip32(e.length);
  }

  /** The index from entry `i` on lies between `off` and `end`. */
  ghost predicate IndexFrom(file: Bytes, index: seq<IndexEntry>, i: nat, off: nat, end: nat) {
    && i <= |index| && off <= end <= |file| && file[off..end] == IndexBytes(index[i..])
    && forall j :: i <= j < |index| ==> IndexFits(index[j])
  }

  lemma IndexTurn(file: Bytes, index: seq<IndexEntry>, i: nat, off: nat, end: nat)
    requires IndexFrom(file, index, i, off, end) && off < end
    ensures i < |index|
    ensures var next := off + 12 + |index[i].maxKey|;
            && ParseIndexEntry(file, off) == Parsed(index[i], next) && IndexFrom(file, index, i + 1, next, end)
  {
    hide IndexEntryBytes, ParseIndexEntry;
    assert i < |index| && index[i..][1..] == index[i + 1..];
    var s := IndexBytes(index[i..]);
    var n := 12 + |index[i].maxKey|;
    SliceWithin(file, off, end, s, 0, n);
    SliceWithin(file, off, end, s, n, |s|);
    ParseIndexRoundTrip(file, off, index[i]);
  }

  lemma IndexEnd(file: Bytes, index: seq<IndexEntry>, i: nat, end: nat)
    requires IndexFrom(file, index, i, end, end)
    ensures i == |index|
  {
    hide IndexEntryBytes;
    assert |IndexBytes(index[i..])| == 0;
  }

  /** Reads the index between two offsets; a file too short for it gives no index. */
  method ReadIndex(file: Bytes, start: nat, end: nat, ghost expected: seq<IndexEntry>)
    returns (r: Option<seq<IndexEntry>>)
    ensures IndexFrom(file, expected, 0, start, end) ==> r == Some(expected)
  {
    hide ParseIndexEntry, IndexFrom;
    ghost var good := IndexFrom(file, expected, 0, start, end);
    var index, off := [], start;
    if good { IndexBound(file, expected, 0, start, end); }
    while off < end
      invariant good ==> off <= end && |index| <= |expected| && index == expected[..|index|]
      invariant good ==> IndexFrom(file, expected, |index|, off, end)
      decreases end - off
    {
      if good {
        IndexTurn(file, expected, |index|, off, end);
        IndexBound(file, expected, |index| + 1, off + 12 + |expected[|index|].maxKey|, end);
      }
      var e := ParseIndexEntry(file, off);
      if e.Short? { return None; }
      index, off := index + [e.entry], e.next;
    }
    assert good ==> index == expected by {
      if good { IndexEnd(file, expected, |index|, end); }
    }
    r := Some(index);
  }

  lemma IndexBound(file: Bytes, index: seq<IndexEntry>, i: nat, off: nat, end: nat)
    requires IndexFrom(file, index, i, off, end)
    ensures off <= end
  {
  }

  // ------------------------------------------------------------- the reader

  lemma IndexThere(file: Bytes, blocks: Blocks, hashes: nat, bits: Bytes)
    requires IsTableFile(file, blocks, hashes, bits)
    ensures var start := |BlocksBytes(blocks)|;
            IndexFrom(file, IndexOf(blocks), 0, start, start + |IndexBytes(IndexOf(blocks))|)
  {
    hide BlocksBytes, IndexBytes, Payload, Footer, BlockBytes, CellsOk;
    FileParts(file, blocks, hashes, bits);
    var index := IndexOf(blocks);
    assert index[0..] == index;
    forall j | 0 <= j < |index| ensures IndexFits(index[j]) {
      BlockAt(file, blocks, hashes, bits, j);
      assert BlockOk(blocks[j]);
      LastFits(blocks[j]);
    }
  }

  lemma LastFits(cells: seq<Cell>)
    requires BlockOk(cells)
    ensures |LastKey(cells)| < TWO32
  {
    assert CellOk(cells, |cells| - 1);
  }

  /** A block's first key is stored whole at its start. */
  lemma FirstKeyIn(b: Bytes, cells: seq<Cell>)
    requires IsBlock(b, cells) && cells != []
    ensures var k := cells[0].entry.key;
            12 + |k| <= |b| && Word(b, 4) == |k| && b[12..12 + |k|] == k
  {
    hide BlockBytes, CellsBytes, WordsBytes, Word, CellBytes, Restarts, ReadPointer;
    BlockParts(b, cells);
    CellAtOffset(b, cells, 0);
    assert CellOk(cells, 0);
    HeaderWords(b, 0, cells[0]);
    PayloadParts(b, 0, cells[0]);
    var k := cells[0].entry.key;
    assert k[0..] == k;
  }

  lemma FirstKeyThere(file: Bytes, blocks: Blocks, hashes: nat, bits: Bytes)
    requires IsTableFile(file, blocks, hashes, bits) && blocks != []
    ensures BlockOk(blocks[0]) && |blocks[0][0].entry.key| + 12 <= |file|
    ensures var k := blocks[0][0].entry.key;
            Word(file, 4) == |k| && file[12..12 + |k|] == k
  {
    hide IsTableFile, BlockBytes, Word, IsBlock, IndexOf;
    TableShape(file, blocks, hashes, bits);
    BlockAt(file, blocks, hashes, bits, 0);
    var b := BlockBytes(blocks[0]);
    FirstBlockThere(file, blocks, hashes, bits);
    FirstKeyIn(b, blocks[0]);
    PrefixWord(file, b, 4);
    var k := blocks[0][0].entry.key;
    assert file[12..12 + |k|] == file[..|b|][12..12 + |k|];
  }

  lemma FirstStart(blocks: Blocks)
    requires BlocksOk(blocks) && blocks != []
    ensures IndexOf(blocks)[0].offset == 0 && IndexOf(blocks)[0].length == |BlockBytes(blocks[0])|
  {
    hide BlockBytes;
  }

  lemma FirstBlockThere(file: Bytes, blocks: Blocks, hashes: nat, bits: Bytes)
    requires IsTableFile(file, blocks, hashes, bits) && blocks != []
    ensures |BlockBytes(blocks[0])| <= |file| && file[..|BlockBytes(blocks[0])|] == BlockBytes(blocks[0])
  {
    hide BlockBytes, IsTableFile, IndexOf;
    BlockAt(file, blocks, hashes, bits, 0);
    TableShape(file, blocks, hashes, bits);
    FirstStart(blocks);
  }

  lemma PrefixWord(file: Bytes, b: Bytes, off: nat)
    requires |b| <= |file| && file[..|b|] == b && off + 4 <= |b|
    ensures Word(file, off) == Word(b, off)
  {
    assert file[off..off + 4] == b[off..off + 4];
  }

  /** The footer's checksum is that of the payload. */
  ghost predicate ChecksumHolds(file: Bytes) {
    && |file| >= FOOTER_SIZE
    && Word(file, |file| - 4) == Crc.Crc32(file[..|file| - FOOTER_SIZE])
  }

  class SSTableReader {
    var file: Bytes
    var index: seq<IndexEntry>
    var minKey: Key
    var maxKey: Key
    var hashes: nat
    var bits: Bytes

    constructor ()
      ensures index == [] && minKey == [] && maxKey == []
    {
      file, index, minKey, maxKey, hashes, bits := [], [], [], [], 0, [];
    }

    /** The reader holds a table of `blocks`. */
    ghost predicate Holds(blocks: Blocks)
      reads this
    {
      Opened(file, index, minKey, maxKey, blocks, hashes, bits)
    }

    /** Opens a file: checks the footer and the checksum, then reads the index, the key range and the filter. */
    method Load(source: Bytes, ghost blocks: Blocks, ghost k: nat, ghost filter: Bytes) returns (ok: bool)
      requires minKey == [] && maxKey == []
      modifies this
      ensures file == source
      ensures IsTableFile(source, blocks, k, filter) ==> ok && Holds(blocks) && hashes == k && bits == filter
      ensures ok ==> ChecksumHolds(source)
    {
      hide IsTableFile, Crc.Checksum, Word, IndexBytes, IndexOf, BlocksBytes, Payload;
      file := source;
      index := [];
      ghost var good := IsTableFile(source, blocks, k, filter);
      if good {
        TableShape(source, blocks, k, filter);
        FooterWords(source, blocks, k, filter);
        FileParts(source, blocks, k, filter);
        IndexThere(source, blocks, k, filter);
      }
      if |source| < FOOTER_SIZE { return false; }
      var size := |source| - FOOTER_SIZE;
      var start, end := Word(source, size), Word(source, size + 4);
      var filterSize, stored := Word(source, size + 8), Word(source, size + 12);
      var computed := PayloadChecksum(source, size);
      if computed as int != stored { return false; }
      var parsed := ReadIndex(source, start, end, if good then IndexOf(blocks) else []);
      if parsed.None? { return false; }
      index := parsed.value;
      ok := ReadRange(blocks, k, filter, good);
      if filterSize >= 4 && end + 4 <= size {
        hashes := Word(source, end);
        bits := source[end + 4..if end + filterSize <= size then end + filterSize else size];
      }
      if good { Ready(blocks, k, filter); }
    }

    /** Reads the table's smallest key from its first block and takes the largest from the index. */
    method ReadRange(ghost blocks: Blocks, ghost k: nat, ghost filter: Bytes, ghost good: bool) returns (ok: bool)
      requires minKey == [] && maxKey == []
      requires good ==> IsTableFile(file, blocks, k, filter) && index == IndexOf(blocks)
      modifies this`minKey, this`maxKey
      ensures good ==> ok && RangeOf(blocks, minKey, maxKey)
    {
      hide IsTableFile, Word, IndexOf;
      if good { IndexLength(file, blocks, k, filter); }
      if index == [] { return true; }
      if good {
        FirstKeyThere(file, blocks, k, filter);
        LastIndex(file, blocks, k, filter);
      }
      var first := index[0].offset;
      if first + 12 > |file| { return false; }
      var size := Word(file, first + 4);
      if first + 12 + size > |file| { return false; }
      minKey := file[first + 12..first + 12 + size];
      maxKey := index[|index| - 1].maxKey;
      ok := true;
    }

    lemma Ready(blocks: Blocks, k: nat, filter: Bytes)
      requires IsTableFile(file, blocks, k, filter) && index == IndexOf(blocks) && RangeOf(blocks, minKey, maxKey)
      requires hashes == k && bits == filter
      ensures Holds(blocks)
    {
    }

    /** Point lookup: range check, binary search of the index, search of one block. */
    method Get(k: Key, ghost blocks: Blocks) returns (r: Answer)
      ensures Holds(blocks) && Sorted(Flatten(blocks)) ==> r == AnswerOf(Find(Flatten(blocks), k))
    {
      hide IsTableFile, Flatten, Find, Opened, Sorted, Below, BlocksOk, Candidate, IsSortedBlock, IndexOf;
      ghost var good := Holds(blocks) && Sorted(Flatten(blocks));
      if good { OpenedShape(file, index, minKey, maxKey, blocks, hashes, bits); }
      if Below(k, minKey) || Below(maxKey, k) {
        if good { OutOfRange(file, index, minKey, maxKey, blocks, hashes, bits, k); }
        return Miss;
      }
      var i := LowerBound(index, k, blocks, good);
      if good { Chosen(file, index, minKey, maxKey, blocks, hashes, bits, k, i); }
      if i == |index| { return Miss; }
      var e := index[i];
      if e.offset + e.length > |file| { return Miss; }
      r := SearchBlock(file[e.offset..e.offset + e.length], k, if good then blocks[i] else []);
    }

    /** The first index entry whose key is not below `k`. */
    method LowerBound(index: seq<IndexEntry>, k: Key, ghost blocks: Blocks, ghost good: bool) returns (i: nat)
      requires good ==> BlocksOk(blocks) && index == IndexOf(blocks) && Sorted(Flatten(blocks))
      ensures i <= |index|
      ensures good ==> i <= |blocks| && Candidate(blocks, i, k)
    {
      hide Flatten, Sorted, BlockBytes;
      var lo, hi := 0, |index|;
      while lo < hi
        invariant 0 <= lo <= hi <= |index|
        invariant good ==> forall m :: 0 <= m < lo ==> Below(LastKey(blocks[m]), k)
        invariant good ==> hi < |blocks| ==> AtMost(k, LastKey(blocks[hi]))
      {
        var mid := lo + (hi - lo) / 2;
        if Below(index[mid].maxKey, k) {
          if good { LastKeysBelow(blocks, mid, k); }
          lo := mid + 1;
        } else {
          hi := mid;
        }
      }
      i := lo;
    }
  }

  lemma IndexLength(file: Bytes, blocks: Blocks, k: nat, filter: Bytes)
    requires IsTableFile(file, blocks, k, filter)
    ensures |IndexOf(blocks)| == |blocks|
    ensures blocks != [] ==> IndexOf(blocks)[0].offset == 0
  {
    hide BlocksBytes, Payload, Footer, BlockBytes, IndexBytes, Sized, CellsOk;
  }

  lemma LastIndex(file: Bytes, blocks: Blocks, k: nat, filter: Bytes)
    requires IsTableFile(file, blocks, k, filter) && blocks != []
    ensures BlockOk(blocks[|blocks| - 1]) && IndexOf(blocks)[|blocks| - 1].maxKey == LastKey(blocks[|blocks| - 1])
  {
    hide BlocksBytes, Payload, Footer, BlockBytes, IndexBytes, Sized, CellsOk;
  }

  lemma LastKeyBelow(blocks: Blocks, m: nat, i: nat, k: Key)
    requires Sorted(Flatten(blocks)) && m <= i < |blocks| && blocks[m] != [] && blocks[i] != []
    requires Below(LastKey(blocks[i]), k)
    ensures Below(LastKey(blocks[m]), k)
  {
    hide Flatten, Sorted, Below;
    if m < i {
      KeysAscend(blocks, m, |blocks[m]| - 1, i, |blocks[i]| - 1);
      BelowTransitive(LastKey(blocks[m]), LastKey(blocks[i]), k);
    }
  }

  lemma LastKeysBelow(blocks: Blocks, i: nat, k: Key)
    requires BlocksOk(blocks) && Sorted(Flatten(blocks)) && i < |blocks| && Below(LastKey(blocks[i]), k)
    ensures forall m :: 0 <= m <= i ==> Below(LastKey(blocks[m]), k)
  {
    hide Flatten, Sorted, Below, Sized, CellsOk, LastKey;
    forall m | 0 <= m <= i ensures Below(LastKey(blocks[m]), k) {
      LastKeyBelow(blocks, m, i, k);
    }
  }

  /** A key outside the recorded range is in no block. */
  lemma OutOfRange(file: Bytes, index: seq<IndexEntry>, minKey: Key, maxKey: Key, blocks: Blocks,
                   hashes: nat, bits: Bytes, k: Key)
    requires Opened(file, index, minKey, maxKey, blocks, hashes, bits) && Sorted(Flatten(blocks))
    requires Below(k, minKey) || Below(maxKey, k)
    ensures Find(Flatten(blocks), k).None?
  {
    hide IsTableFile, Flatten, Sorted;
    var es := Flatten(blocks);
    if m: nat :| m < |es| && es[m].key == k {
      var i, j := EntryInBlock(blocks, m);
      var last := |blocks| - 1;
      BelowIrreflexive(k);
      if i > 0 || j > 0 { KeysAscend(blocks, 0, 0, i, j); }
      if i < last || j < |blocks[last]| - 1 { KeysAscend(blocks, i, j, last, |blocks[last]| - 1); }
      if Below(k, minKey) { if i > 0 || j > 0 { BelowAsymmetric(minKey, k); } }
      if Below(maxKey, k) { if i < last || j < |blocks[last]| - 1 { BelowAsymmetric(k, maxKey); } }
      assert false;
    }
  }

  /** Reading and searching the candidate block answers for the table. */
  lemma Chosen(file: Bytes, index: seq<IndexEntry>, minKey: Key, maxKey: Key, blocks: Blocks,
               hashes: nat, bits: Bytes, k: Key, i: nat)
    requires Opened(file, index, minKey, maxKey, blocks, hashes, bits) && Sorted(Flatten(blocks))
    requires BlocksOk(blocks) && i <= |blocks| && Candidate(blocks, i, k)
    ensures |index| == |blocks|
    ensures i == |blocks| ==> Find(Flatten(blocks), k).None?
    ensures i < |blocks| ==> var e := index[i];
              && e.offset + e.length <= |file| && IsSortedBlock(file[e.offset..e.offset + e.length], blocks[i])
              && Find(Flatten(blocks), k) == Find(Entries(blocks[i]), k)
  {
    hide IsTableFile, Flatten, Sorted, IsBlock, BlockBytes, Candidate, BlocksOk;
    CandidateDecides(blocks, i, k);
    IndexLength(file, blocks, hashes, bits);
    if i < |blocks| {
      BlockAt(file, blocks, hashes, bits, i);
      BlockSorted(blocks, i);
      assert BlockOk(blocks[i]) by { NthBlock(blocks, i); }
    }
  }

  lemma NthBlock(blocks: Blocks, i: nat)
    requires BlocksOk(blocks) && i < |blocks|
    ensures BlockOk(blocks[i])
  {
  }

  // ---------------------------------------------------------------- damage

  /** Damage within four consecutive bytes of the payload, or in the stored checksum alone, shows. */
  lemma DamageShows(file: Bytes, file': Bytes, i: nat)
    requires ChecksumHolds(file) && |file'| == |file| && file != file'
    requires forall j :: 0 <= j < |file| && !(i <= j < i + 4) ==> file[j] == file'[j]
    requires i + 4 <= |file| - FOOTER_SIZE || i == |file| - 4
    ensures !ChecksumHolds(file')
  {
    hide Crc.Checksum, U32, Value32;
    var p := |file| - FOOTER_SIZE;
    SameParts(file, file', p);
    if i + 4 <= p {
      assert file[p + 12..p + 16] == file'[p + 12..p + 16];
      assert file[p..] == file'[p..];
      Crc.BurstDetectedAt(file[..p], file'[..p], i);
      if ChecksumHolds(file') { Crc.Crc32Distinct(file[..p], file'[..p]); }
    } else {
      assert file[..p] == file'[..p];
      StoredDistinct(file, file', i);
    }
  }

  lemma SameParts(a: Bytes, b: Bytes, p: nat)
    requires p <= |a| == |b|
    ensures a == b <==> a[..p] == b[..p] && a[p..] == b[p..]
  {
    assert a == a[..p] + a[p..] && b == b[..p] + b[p..];
  }

  lemma StoredDistinct(file: Bytes, file': Bytes, i: nat)
    requires |file'| == |file| && file != file' && i + 4 == |file|
    requires forall j :: 0 <= j < |file| && !(i <= j < i + 4) ==> file[j] == file'[j]
    ensures Word(file, i) != Word(file', i)
  {
    hide U32, Value32;
    SameParts(file, file', i);
    assert file[..i] == file'[..i];
    assert file[i..] == file[i..i + 4] && file'[i..] == file'[i..i + 4];
    Bytes32(file[i..i + 4]);
    Bytes32(file'[i..i + 4]);
  }
}
