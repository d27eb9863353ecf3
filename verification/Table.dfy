/** The table file: data blocks, an index of the blocks, the filter, and a checksummed footer. */
module Table {
  import opened Keys
  import opened Codec
  import opened Lsm
  import opened Block
  import Crc

  const FOOTER_SIZE: nat := 16

  type Blocks = seq<seq<Cell>>

  datatype IndexEntry = IndexEntry(maxKey: Key, offset: nat, length: nat)

  ghost predicate BlockOk(cells: seq<Cell>) {
    cells != [] && Sized(cells) && CellsOk(cells)
  }

  ghost predicate BlocksOk(blocks: Blocks) {
    forall i :: 0 <= i < |blocks| ==> BlockOk(blocks[i])
  }

  // ------------------------------------------------------------- the layout

  ghost function BlocksBytes(blocks: Blocks): Bytes
    requires BlocksOk(blocks)
  {
    if blocks == [] then [] else BlocksBytes(blocks[..|blocks| - 1]) + BlockBytes(blocks[|blocks| - 1])
  }

  ghost function BlockStart(blocks: Blocks, i: nat): nat
    requires BlocksOk(blocks) && i <= |blocks|
  {
    if i == 0 then 0 else BlockStart(blocks, i - 1) + |BlockBytes(blocks[i - 1])|
  }

  ghost function LastKey(cells: seq<Cell>): Key
    requires cells != []
  {
    cells[|cells| - 1].entry.key
  }

  /** One index entry a block: its largest key, where it starts, how long it is. */
  ghost function IndexOf(blocks: Blocks): seq<IndexEntry>
    requires BlocksOk(blocks)
  {
    seq(|blocks|, i requires 0 <= i < |blocks| =>
      IndexEntry(LastKey(blocks[i]), BlockStart(blocks, i), |BlockBytes(blocks[i])|))
  }

  function IndexEntryBytes(e: IndexEntry): (b: Bytes)
    ensures |b| == 12 + |e.maxKey|
  {
    U32(|e.maxKey|) + e.maxKey + U32(e.offset) + U32(e.length)
  }

  function IndexBytes(index: seq<IndexEntry>): Bytes {
    if index == [] then [] else IndexEntryBytes(index[0]) + IndexBytes(index[1..])
  }

  ghost function Payload(blocks: Blocks, hashes: nat, bits: Bytes): Bytes
    requires BlocksOk(blocks)
  {
    BlocksBytes(blocks) + IndexBytes(IndexOf(blocks)) + U32(hashes) + bits
  }

  ghost function Footer(blocks: Blocks, hashes: nat, bits: Bytes): (b: Bytes)
    requires BlocksOk(blocks)
    ensures |b| == FOOTER_SIZE
  {
    var start := |BlocksBytes(blocks)|;
    U32(start) + U32(start + |IndexBytes(IndexOf(blocks))|) + U32(4 + |bits|)
    + U32(Crc.Crc32(Payload(blocks, hashes, bits)))
  }

  /** A file of the table format: every offset in it fits the 32 bits it is stored in. */
  ghost predicate IsTableFile(file: Bytes, blocks: Blocks, hashes: nat, bits: Bytes) {
    && BlocksOk(blocks) && hashes < TWO32 && |file| < TWO32
    && file == Payload(blocks, hashes, bits) + Footer(blocks, hashes, bits)
  }

  // ------------------------------------------------------------- the entries

  ghost function Flatten(blocks: Blocks): seq<Entry> {
    if blocks == [] then [] else Flatten(blocks[..|blocks| - 1]) + Entries(blocks[|blocks| - 1])
  }

  /** How many entries come before block `i`. */
  ghost function First(blocks: Blocks, i: nat): nat
    requires i <= |blocks|
  {
    if i == 0 then 0 else First(blocks, i - 1) + |blocks[i - 1]|
  }

  lemma {:induction false} FirstPrefix(blocks: Blocks, n: nat, i: nat)
    requires i <= n <= |blocks|
    ensures First(blocks[..n], i) == First(blocks, i)
  {
    if i > 0 { FirstPrefix(blocks, n, i - 1); }
  }

  lemma {:induction false} FlattenLength(blocks: Blocks)
    ensures |Flatten(blocks)| == First(blocks, |blocks|)
  {
    if blocks != [] {
      FlattenLength(blocks[..|blocks| - 1]);
      FirstPrefix(blocks, |blocks| - 1, |blocks| - 1);
    }
  }

  lemma {:induction false} FlattenAt(blocks: Blocks, i: nat, j: nat)
    requires i < |blocks| && j < |blocks[i]|
    ensures First(blocks, i) + j < |Flatten(blocks)|
    ensures Flatten(blocks)[First(blocks, i) + j] == blocks[i][j].entry
  {
    var n := |blocks| - 1;
    FlattenLength(blocks[..n]);
    FirstPrefix(blocks, n, n);
    if i < n {
      FlattenAt(blocks[..n], i, j);
      FirstPrefix(blocks, n, i);
    }
  }

  lemma {:induction false} FirstMonotone(blocks: Blocks, i: nat, j: nat)
    requires i < j <= |blocks|
    ensures First(blocks, i) + |blocks[i]| <= First(blocks, j)
  {
    if i < j - 1 { FirstMonotone(blocks, i, j - 1); }
  }

  /** Every entry of the table is in some block. */
  lemma {:induction false} EntryInBlock(blocks: Blocks, m: nat) returns (i: nat, j: nat)
    requires m < |Flatten(blocks)|
    ensures i < |blocks| && j < |blocks[i]| && m == First(blocks, i) + j
    ensures Flatten(blocks)[m] == blocks[i][j].entry
  {
    var n := |blocks| - 1;
    FlattenLength(blocks[..n]);
    FirstPrefix(blocks, n, n);
    if m < |Flatten(blocks[..n])| {
      i, j := EntryInBlock(blocks[..n], m);
      FirstPrefix(blocks, n, i);
    } else {
      i, j := n, m - |Flatten(blocks[..n])|;
    }
  }

  /** In a sorted table, keys ascend within a block and from block to block. */
  lemma KeysAscend(blocks: Blocks, i: nat, j: nat, i': nat, j': nat)
    requires Sorted(Flatten(blocks)) && i < |blocks| && j < |blocks[i]| && i' < |blocks| && j' < |blocks[i']|
    requires i < i' || (i == i' && j < j')
    ensures Below(blocks[i][j].entry.key, blocks[i'][j'].entry.key)
  {
    FlattenAt(blocks, i, j);
    FlattenAt(blocks, i', j');
    if i < i' { FirstMonotone(blocks, i, i'); }
    assert Below(Flatten(blocks)[First(blocks, i) + j].key, Flatten(blocks)[First(blocks, i') + j'].key);
  }

  lemma BlockSorted(blocks: Blocks, i: nat)
    requires Sorted(Flatten(blocks)) && i < |blocks|
    ensures Sorted(Entries(blocks[i]))
  {
    hide Flatten;
    var es := Entries(blocks[i]);
    forall j, j' | 0 <= j < j' < |es| ensures Below(es[j].key, es[j'].key) {
      KeysAscend(blocks, i, j, i, j');
    }
  }

  /** `i` is the block to look in: all blocks before it end below `k`, and it does not. */
  ghost predicate Candidate(blocks: Blocks, i: nat, k: Key)
    requires BlocksOk(blocks) && i <= |blocks|
  {
    && (forall m :: 0 <= m < i ==> Below(LastKey(blocks[m]), k))
    && (i < |blocks| ==> AtMost(k, LastKey(blocks[i])))
  }

  /** Only the candidate block can hold the key. */
  lemma OnlyCandidate(blocks: Blocks, i: nat, k: Key, m: nat, j: nat)
    requires BlocksOk(blocks) && Sorted(Flatten(blocks)) && i <= |blocks| && Candidate(blocks, i, k)
    requires m < |blocks| && j < |blocks[m]| && m != i
    ensures blocks[m][j].entry.key != k
  {
    hide Flatten, Sorted;
    BelowIrreflexive(k);
    if m < i {
      if j < |blocks[m]| - 1 {
        KeysAscend(blocks, m, j, m, |blocks[m]| - 1);
        BelowTransitive(blocks[m][j].entry.key, LastKey(blocks[m]), k);
      }
    } else {
      assert BlockOk(blocks[i]);
      KeysAscend(blocks, i, |blocks[i]| - 1, m, j);
      AtMostBelow(k, LastKey(blocks[i]), blocks[m][j].entry.key);
    }
  }

  /** Looking up the candidate block is looking up the table. */
  lemma CandidateDecides(blocks: Blocks, i: nat, k: Key)
    requires BlocksOk(blocks) && Sorted(Flatten(blocks)) && i <= |blocks| && Candidate(blocks, i, k)
    ensures i == |blocks| ==> Find(Flatten(blocks), k).None?
    ensures i < |blocks| ==> Find(Flatten(blocks), k) == Find(Entries(blocks[i]), k)
  {
    hide Flatten, Sorted, Candidate;
    var es := Flatten(blocks);
    if m: nat :| m < |es| && es[m].key == k {
      var b, j := EntryInBlock(blocks, m);
      if b != i { OnlyCandidate(blocks, i, k, b, j); }
      BlockSorted(blocks, i);
      FindAt(es, m);
      FindAt(Entries(blocks[i]), j);
    } else if i < |blocks| {
      forall j | 0 <= j < |blocks[i]| ensures Entries(blocks[i])[j].key != k {
        FlattenAt(blocks, i, j);
      }
    }
  }

  // -------------------------------------------------------- finding the parts

  lemma {:induction false} StartPrefix(blocks: Blocks, n: nat, i: nat)
    requires BlocksOk(blocks) && i <= n <= |blocks|
    ensures BlockStart(blocks[..n], i) == BlockStart(blocks, i)
  {
    hide BlockBytes;
    if i > 0 { StartPrefix(blocks, n, i - 1); }
  }

  lemma {:induction false} BlocksLength(blocks: Blocks)
    requires BlocksOk(blocks)
    ensures |BlocksBytes(blocks)| == BlockStart(blocks, |blocks|)
  {
    hide BlockBytes;
    if blocks != [] {
      BlocksLength(blocks[..|blocks| - 1]);
      StartPrefix(blocks, |blocks| - 1, |blocks| - 1);
    }
  }

  lemma {:induction false} BlockSlice(blocks: Blocks, i: nat)
    requires BlocksOk(blocks) && i < |blocks|
    ensures var off, size := BlockStart(blocks, i), |BlockBytes(blocks[i])|;
            off + size <= |BlocksBytes(blocks)| && BlocksBytes(blocks)[off..off + size] == BlockBytes(blocks[i])
  {
    hide BlockBytes;
    var n := |blocks| - 1;
    BlocksLength(blocks[..n]);
    StartPrefix(blocks, n, n);
    if i < n {
      BlockSlice(blocks[..n], i);
      StartPrefix(blocks, n, i);
    }
  }

  lemma IndexAppend(index: seq<IndexEntry>, e: IndexEntry)
    ensures IndexBytes(index + [e]) == IndexBytes(index) + IndexEntryBytes(e)
  {
    hide IndexEntryBytes;
    if index == [] {
      assert (index + [e])[1..] == [];
    } else {
      IndexAppend(index[1..], e);
      assert (index + [e])[1..] == index[1..] + [e];
    }
  }

  /** Adding a block adds its bytes, its index entry and its entries. */
  lemma AddBlock(blocks: Blocks, cells: seq<Cell>)
    requires BlocksOk(blocks) && BlockOk(cells)
    ensures var all := blocks + [cells];
            && BlocksOk(all) && BlocksBytes(all) == BlocksBytes(blocks) + BlockBytes(cells)
            && Flatten(all) == Flatten(blocks) + Entries(cells)
            && IndexOf(all) == IndexOf(blocks)
                 + [IndexEntry(LastKey(cells), |BlocksBytes(blocks)|, |BlockBytes(cells)|)]
  {
    hide BlockBytes, Entries, BlockOk;
    var all, n := blocks + [cells], |blocks|;
    assert all[..n] == blocks;
    BlocksLength(blocks);
    StartPrefix(all, n, n);
    forall i | 0 <= i < n ensures IndexOf(all)[i] == IndexOf(blocks)[i] {
      StartPrefix(all, n, i);
    }
  }

  /** The four words at the end of a table file. */
  lemma FooterWords(file: Bytes, blocks: Blocks, hashes: nat, bits: Bytes)
    requires IsTableFile(file, blocks, hashes, bits)
    ensures var p, start := |file| - FOOTER_SIZE, |BlocksBytes(blocks)|;
            && 0 <= p && file[..p] == Payload(blocks, hashes, bits)
            && Word(file, p) == start && Word(file, p + 4) == start + |IndexBytes(IndexOf(blocks))|
            && Word(file, p + 8) == 4 + |bits| && Word(file, p + 12) == Crc.Crc32(file[..p])
  {
    hide U32, Value32, BlocksBytes, IndexBytes, IndexOf, Crc.Crc32;
    var p, start := |file| - FOOTER_SIZE, |BlocksBytes(blocks)|;
    var f := Footer(blocks, hashes, bits);
    assert file[p..p + 4] == f[..4] == U32(start);
    assert file[p + 4..p + 8] == f[4..8] == U32(start + |IndexBytes(IndexOf(blocks))|);
    assert file[p + 8..p + 12] == f[8..12] == U32(4 + |bits|);
    assert file[p + 12..p + 16] == f[12..16] == U32(Crc.Crc32(Payload(blocks, hashes, bits)));
    RoundTrip32(start);
    RoundTrip32(start + |IndexBytes(IndexOf(blocks))|);
    RoundTrip32(4 + |bits|);
    RoundTrip32(Crc.Crc32(Payload(blocks, hashes, bits)));
  }

  /** The blocks, the index and the filter lie where the footer says. */
  lemma FileParts(file: Bytes, blocks: Blocks, hashes: nat, bits: Bytes)
    requires IsTableFile(file, blocks, hashes, bits)
    ensures var start := |BlocksBytes(blocks)|; var end := start + |IndexBytes(IndexOf(blocks))|;
            && end + 4 + |bits| + FOOTER_SIZE == |file|
            && file[..start] == BlocksBytes(blocks) && file[start..end] == IndexBytes(IndexOf(blocks))
            && Word(file, end) == hashes && file[end + 4..end + 4 + |bits|] == bits
  {
    hide U32, Value32, BlocksBytes, IndexBytes, IndexOf, Footer;
    var start := |BlocksBytes(blocks)|;
    var end := start + |IndexBytes(IndexOf(blocks))|;
    assert file[end..end + 4] == U32(hashes);
    RoundTrip32(hashes);
  }

  /** A block read at its index entry is that block. */
  lemma BlockAt(file: Bytes, blocks: Blocks, hashes: nat, bits: Bytes, i: nat)
    requires IsTableFile(file, blocks, hashes, bits) && i < |blocks|
    ensures var e := IndexOf(blocks)[i];
            && e.offset + e.length <= |file|
            && file[e.offset..e.offset + e.length] == BlockBytes(blocks[i])
            && IsBlock(BlockBytes(blocks[i]), blocks[i])
  {
    hide BlocksBytes, BlockBytes, IndexBytes, Footer, Payload;
    BlockSlice(blocks, i);
    BlockPrefix(file, blocks, hashes, bits);
    var e := IndexOf(blocks)[i];
    assert file[..|BlocksBytes(blocks)|][e.offset..e.offset + e.length] == file[e.offset..e.offset + e.length];
    assert BlockOk(blocks[i]);
  }

  lemma BlockPrefix(file: Bytes, blocks: Blocks, hashes: nat, bits: Bytes)
    requires IsTableFile(file, blocks, hashes, bits)
    ensures |BlocksBytes(blocks)| <= |file| && file[..|BlocksBytes(blocks)|] == BlocksBytes(blocks)
  {
    hide BlocksBytes, IndexBytes, IndexOf, Footer, U32;
  }
}
