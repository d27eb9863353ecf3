/** Writing a table: entries packed into prefix-compressed blocks, then index, filter and footer. */
module TableWriter {
  import opened Keys
  import opened Codec
  import opened Lsm
  import opened Block
  import opened Table
  import Crc

  ghost predicate EntryFits(e: Entry) {
    |e.key| < TWO32 && PointerFits(e.ptr)
  }

  // ------------------------------------------------------- what is written

  /** How much of its predecessor's key an entry takes when it follows `cells`. */
  ghost function SharedAfter(cells: seq<Cell>, key: Key): nat {
    if |cells| % RESTART_INTERVAL == 0 then 0 else FirstDifference(LastKey(cells), key)
  }

  ghost function CellAfter(cells: seq<Cell>, e: Entry): Cell {
    Cell(SharedAfter(cells, e.key), e)
  }

  /** Every sixteenth entry starts afresh; the others take all they can from their predecessor. */
  ghost predicate Compressed(cells: seq<Cell>) {
    forall j :: 0 <= j < |cells| ==> cells[j] == CellAfter(cells[..j], cells[j].entry)
  }

  /** The length of a block with `e` added. */
  ghost predicate Overflows(cells: seq<Cell>, e: Entry)
    requires Sized(cells)
  {
    Sized(cells + [CellAfter(cells, e)]) && |BlockBytes(cells + [CellAfter(cells, e)])| > BLOCK_LIMIT
  }

  /** A block is over the limit only if a single entry is. */
  ghost predicate Within(cells: seq<Cell>)
    requires Sized(cells)
  {
    |cells| >= 2 ==> |BlockBytes(cells)| <= BLOCK_LIMIT
  }

  /** Blocks are cut exactly where the next entry would not fit. */
  ghost predicate Packed(blocks: Blocks)
    requires BlocksOk(blocks)
  {
    && (forall i :: 0 <= i < |blocks| ==> Compressed(blocks[i]) && Within(blocks[i]))
    && (forall i :: 0 <= i < |blocks| - 1 ==> Overflows(blocks[i], blocks[i + 1][0].entry))
  }

  /** What packing means: every sixteenth entry of a block is stored whole and every other one without the longest
      prefix it has in common with the one before; a block of two or more entries is at most 4096 bytes, and the
      first entry of the next would have made it longer. */
  lemma PackedMeans(blocks: Blocks, i: nat, j: nat)
    requires BlocksOk(blocks) && Packed(blocks) && i < |blocks| && j < |blocks[i]|
    ensures var cell := blocks[i][j];
            if j % 16 == 0 then cell.shared == 0
            else
              var prev, key := blocks[i][j - 1].entry.key, cell.entry.key;
              && cell.shared <= |prev| && cell.shared <= |key| && prev[..cell.shared] == key[..cell.shared]
              && (cell.shared < |prev| && cell.shared < |key| ==> prev[cell.shared] != key[cell.shared])
    ensures |blocks[i]| >= 2 ==> |BlockBytes(blocks[i])| <= 4096
    ensures i + 1 < |blocks| ==>
              var more := blocks[i] + [CellAfter(blocks[i], blocks[i + 1][0].entry)];
              Sized(more) && |BlockBytes(more)| > 4096
  {
    hide BlockBytes;
    assert Compressed(blocks[i]) && Within(blocks[i]);
    assert i + 1 < |blocks| ==> Overflows(blocks[i], blocks[i + 1][0].entry);
  }

  // ------------------------------------------------------------ adding a cell

  lemma AfterFits(cells: seq<Cell>, e: Entry)
    requires Sized(cells) && CellsOk(cells) && EntryFits(e)
    ensures var all := cells + [CellAfter(cells, e)]; Sized(all) && CellsOk(all)
  {
    var c := CellAfter(cells, e);
    var all := cells + [c];
    forall i | 0 <= i < |all| ensures CellOk(all, i) {
      if i < |cells| { assert CellOk(cells, i); }
    }
  }

  lemma RestartsAppend(cells: seq<Cell>, c: Cell)
    requires Sized(cells + [c]) && Sized(cells)
    ensures Restarts(cells + [c]) == Restarts(cells) + if c.shared == 0 then [|CellsBytes(cells)|] else []
  {
    var all, n := cells + [c], |cells|;
    assert all[..n] == cells;
    CellsBytesLength(cells);
    var r := RestartCells(cells);
    forall j | 0 <= j < |r| ensures Offset(all, r[j]) == Offset(cells, r[j]) {
      OffsetPrefix(all, n, r[j]);
    }
    OffsetPrefix(all, n, n);
  }

  lemma CellsAppend(cells: seq<Cell>, c: Cell)
    requires Sized(cells + [c]) && Sized(cells) && c.shared <= |c.entry.key|
    ensures CellsBytes(cells + [c]) == CellsBytes(cells) + CellBytes(c)
  {
    hide CellBytes;
    assert (cells + [c])[..|cells|] == cells;
  }

  lemma BlockLength(cells: seq<Cell>)
    requires Sized(cells)
    ensures |BlockBytes(cells)| == |CellsBytes(cells)| + 4 * |Restarts(cells)| + 4
  {
    hide CellsBytes, Restarts, U32;
  }

  lemma CompressedAppend(cells: seq<Cell>, e: Entry)
    requires Compressed(cells)
    ensures Compressed(cells + [CellAfter(cells, e)])
  {
    hide CellAfter;
    var all := cells + [CellAfter(cells, e)];
    forall j | 0 <= j < |all| ensures all[j] == CellAfter(all[..j], all[j].entry) {
      assert all[..j] == cells[..j];
      assert j == |cells| ==> all[..j] == cells;
      CellAfterEntry(cells, e);
    }
  }

  lemma CellAfterEntry(cells: seq<Cell>, e: Entry)
    ensures CellAfter(cells, e).entry == e
  {
  }

  // ------------------------------------------------------------ the writer

  datatype Writer = Writer(out: Bytes, index: seq<IndexEntry>, checksum: bv32,
                           block: Bytes, restarts: seq<nat>, lastKey: Key, counter: nat)

  /** The block under construction holds `cells`. */
  ghost predicate Open(w: Writer, cells: seq<Cell>) {
    && Sized(cells) && CellsOk(cells)
    && w.block == CellsBytes(cells) && w.restarts == Restarts(cells) && w.counter == |cells|
    && w.lastKey == if cells == [] then [] else LastKey(cells)
  }

  /** The blocks already flushed. */
  ghost predicate Flushed(w: Writer, blocks: Blocks) {
    && BlocksOk(blocks) && w.out == BlocksBytes(blocks) && w.index == IndexOf(blocks)
    && w.checksum == Crc.Checksum(w.out)
  }

  ghost function All(blocks: Blocks, cells: seq<Cell>): Blocks {
    if cells == [] then blocks else blocks + [cells]
  }

  ghost predicate AllOk(blocks: Blocks, cells: seq<Cell>, done: seq<Entry>) {
    && BlocksOk(All(blocks, cells)) && Packed(All(blocks, cells)) && Flatten(All(blocks, cells)) == done
    && (cells == [] ==> blocks == [])
  }

  /** Counts the leading bytes two keys share. */
  method SharedPrefix(last: Key, key: Key) returns (n: nat)
    ensures n == FirstDifference(last, key)
  {
    n := 0;
    while n < |last| && n < |key| && last[n] == key[n]
      invariant n <= |last| && n <= |key| && last[..n] == key[..n]
    {
      assert last[..n + 1] == last[..n] + [last[n]] && key[..n + 1] == key[..n] + [key[n]];
      n := n + 1;
    }
    DifferenceUnique(last, key, n);
  }

  lemma DifferenceUnique(a: Key, b: Key, n: nat)
    requires n <= |a| && n <= |b| && a[..n] == b[..n] && (n < |a| && n < |b| ==> a[n] != b[n])
    ensures n == FirstDifference(a, b)
  {
    var m := FirstDifference(a, b);
    assert forall i :: 0 <= i < n ==> a[i] == a[..n][i] == b[..n][i] == b[i];
    assert forall i :: 0 <= i < m ==> a[i] == a[..m][i] == b[..m][i] == b[i];
  }

  /** Ends a block with its restart offsets and their count. */
  method FinishBlock(block: Bytes, restarts: seq<nat>) returns (b: Bytes)
    ensures b == block + WordsBytes(restarts) + U32(|restarts|)
  {
    hide U32;
    b := block;
    var i := 0;
    assert restarts[..0] == [];
    while i < |restarts|
      invariant i <= |restarts| && b == block + WordsBytes(restarts[..i])
    {
      assert restarts[..i + 1][..i] == restarts[..i];
      b := b + U32(restarts[i]);
      i := i + 1;
    }
    assert restarts[..i] == restarts;
    b := b + U32(|restarts|);
  }

  /** Moves the block under construction to the file and starts an empty one. */
  method FlushBlock(w: Writer, maxKey: Key, ghost blocks: Blocks, ghost cells: seq<Cell>) returns (w': Writer)
    requires Flushed(w, blocks) && Open(w, cells) && cells != [] && maxKey == LastKey(cells)
    ensures Flushed(w', blocks + [cells]) && Open(w', [])
  {
    hide BlocksBytes, IndexOf, WordsBytes, U32, Crc.Checksum, Crc.Extend, CellsBytes, Restarts;
    var b := FinishBlock(w.block, w.restarts);
    AddBlock(blocks, cells);
    BlockLength(cells);
    Crc.ChunkingIsInvisible(w.out, b);
    EmptyBlock();
    w' := Writer(w.out + b, w.index + [IndexEntry(maxKey, |w.out|, |w.block| + 4 * |w.restarts| + 4)],
                 Crc.Extend(w.checksum, b), [], [], [], 0);
  }

  lemma EmptyBlock()
    ensures CellsBytes([]) == [] && Restarts([]) == []
  {
  }

  lemma BlockOpen(w: Writer, cells: seq<Cell>)
    requires Open(w, cells)
    ensures w.block == [] <==> cells == []
  {
    hide Restarts;
    CellsBytesLength(cells);
    if cells != [] { OffsetMonotone(cells, 0, |cells|); }
  }

  /** Adds one entry to the block under construction. */
  method Append(w: Writer, e: Entry, shared: nat, ghost cells: seq<Cell>) returns (w': Writer)
    requires Open(w, cells) && EntryFits(e) && shared == SharedAfter(cells, e.key)
    ensures Open(w', cells + [CellAfter(cells, e)])
    ensures w'.out == w.out && w'.index == w.index && w'.checksum == w.checksum
  {
    hide CellsBytes, Restarts, CellBytes;
    AfterFits(cells, e);
    CellsAppend(cells, CellAfter(cells, e));
    RestartsAppend(cells, CellAfter(cells, e));
    var restarts := if shared == 0 then w.restarts + [|w.block|] else w.restarts;
    w' := w.(block := w.block + CellBytes(Cell(shared, e)), restarts := restarts, lastKey := e.key,
             counter := w.counter + 1);
  }

  /** What the size estimate of the next entry comes to. */
  lemma Estimate(w: Writer, cells: seq<Cell>, e: Entry, shared: nat)
    requires Open(w, cells) && EntryFits(e) && shared == SharedAfter(cells, e.key)
    ensures var c := CellAfter(cells, e);
            && shared <= |e.key| && Sized(cells + [c])
            && |BlockBytes(cells + [c])|
                 == |w.block| + CellSize(Cell(shared, e)) + 4 * (|w.restarts| + if shared == 0 then 1 else 0) + 4
  {
    hide CellsBytes, Restarts, CellBytes, BlockBytes;
    var c := CellAfter(cells, e);
    AfterFits(cells, e);
    CellsAppend(cells, c);
    RestartsAppend(cells, c);
    BlockLength(cells + [c]);
  }

  lemma Stays(blocks: Blocks, cells: seq<Cell>, done: seq<Entry>, e: Entry)
    requires AllOk(blocks, cells, done) && Sized(cells) && CellsOk(cells) && EntryFits(e)
    requires cells != [] ==> !Overflows(cells, e)
    ensures AllOk(blocks, cells + [CellAfter(cells, e)], done + [e])
  {
    hide BlockBytes, CellAfter, Flatten, CellsOk;
    var c := CellAfter(cells, e);
    var all: Blocks, all': Blocks := All(blocks, cells), All(blocks, cells + [c]);
    AfterFits(cells, e);
    CellAfterEntry(cells, e);
    assert Compressed(cells) by {
      assert cells != [] ==> all[|blocks|] == cells;
    }
    CompressedAppend(cells, e);
    forall i | 0 <= i < |blocks| ensures blocks[i] == all[i] && BlockOk(blocks[i]) {
    }
    forall i | 0 <= i < |all'| - 1 ensures Overflows(all'[i], all'[i + 1][0].entry) {
      assert all[i] == all'[i] && all[i + 1][0] == all'[i + 1][0];
    }
    FlattenLast(blocks, cells, e, c);
  }

  lemma FlattenLast(blocks: Blocks, cells: seq<Cell>, e: Entry, c: Cell)
    requires cells == [] ==> blocks == []
    requires c.entry == e
    ensures Flatten(blocks + [cells + [c]]) == Flatten(All(blocks, cells)) + [e]
  {
    assert (blocks + [cells + [c]])[..|blocks|] == blocks;
    assert cells != [] ==> (blocks + [cells])[..|blocks|] == blocks;
    assert Entries(cells + [c]) == Entries(cells) + [e];
  }

  lemma StartsAnew(blocks: Blocks, cells: seq<Cell>, done: seq<Entry>, e: Entry)
    requires AllOk(blocks, cells, done) && cells != [] && EntryFits(e) && Sized(cells) && Overflows(cells, e)
    ensures AllOk(blocks + [cells], [CellAfter([], e)], done + [e])
  {
    hide BlockBytes, Flatten, Overflows, Compressed, CellAfter, CellsOk, Within;
    var c := CellAfter([], e);
    SingleBlock(e);
    var all: Blocks, all': Blocks := blocks + [cells], blocks + [cells] + [[c]];
    forall i | 0 <= i < |all'| ensures BlockOk(all'[i]) {
      if i < |all| { assert all[i] == all'[i]; }
    }
    forall i | 0 <= i < |all'| - 1 ensures Overflows(all'[i], all'[i + 1][0].entry) {
      if i + 1 < |all| { assert all[i] == all'[i] && all[i + 1] == all'[i + 1]; }
    }
    FlattenNew(all, c);
  }

  lemma SingleBlock(e: Entry)
    requires EntryFits(e)
    ensures var cells := [CellAfter([], e)]; BlockOk(cells) && Compressed(cells) && Within(cells) && cells[0].entry == e
  {
    hide BlockBytes;
    AfterFits([], e);
    CompressedAppend([], e);
    assert [] + [CellAfter([], e)] == [CellAfter([], e)];
  }

  lemma FlattenNew(blocks: Blocks, c: Cell)
    ensures Flatten(blocks + [[c]]) == Flatten(blocks) + [c.entry]
  {
    assert (blocks + [[c]])[..|blocks|] == blocks;
    assert Entries([c]) == [c.entry];
  }

  /** How entries are packed: the blocks closed so far and the cells of the open one. */
  ghost function Packing(es: seq<Entry>): (r: (Blocks, seq<Cell>))
    requires forall e :: e in es ==> EntryFits(e)
    ensures AllOk(r.0, r.1, es) && Sized(r.1) && CellsOk(r.1)
  {
    hide AllOk, CellsOk, Flatten;
    if es == [] then
      WriterStarts();
      ([], [])
    else
      var front, e := es[..|es| - 1], es[|es| - 1];
      var (blocks, cells) := Packing(front);
      assert front + [e] == es && e in es;
      AfterFits(cells, e);
      AfterFits([], e);
      assert [] + [CellAfter([], e)] == [CellAfter([], e)];
      if cells != [] && Overflows(cells, e) then
        StartsAnew(blocks, cells, front, e);
        (blocks + [cells], [CellAfter([], e)])
      else
        Stays(blocks, cells, front, e);
        (blocks, cells + [CellAfter(cells, e)])
  }

  /** The blocks entries are packed into: in order, compressed, and cut exactly where the next entry would not fit. */
  ghost function Pack(es: seq<Entry>): (blocks: Blocks)
    requires forall e :: e in es ==> EntryFits(e)
    ensures BlocksOk(blocks) && Packed(blocks) && Flatten(blocks) == es
  {
    var (blocks, cells) := Packing(es);
    AllDone(blocks, cells, es);
    All(blocks, cells)
  }

  /** One entry more. */
  lemma PackOne(done: seq<Entry>, e: Entry)
    requires (forall x :: x in done ==> EntryFits(x)) && EntryFits(e)
    ensures var (blocks, cells) := Packing(done);
            Packing(done + [e]) == if cells != [] && Overflows(cells, e) then (blocks + [cells], [CellAfter([], e)])
                                   else (blocks, cells + [CellAfter(cells, e)])
  {
    hide AllOk, CellsOk, Flatten, CellAfter, Overflows, EntryFits;
    assert (done + [e])[..|done|] == done;
  }

  /** Packs entries into blocks, starting a new block whenever the next entry would not fit. */
  method WriteBlocks(entries: seq<Entry>) returns (w: Writer)
    requires forall e :: e in entries ==> EntryFits(e)
    ensures Flushed(w, Pack(entries))
  {
    hide BlockBytes, CellAfter, SharedAfter, AllOk, Open, Flushed, Flatten, EntryFits, Packing, Packed;
    w := Writer([], [], 0, [], [], [], 0);
    WriterStarts();
    NothingPacked();
    var i := 0;
    while i < |entries|
      invariant i <= |entries| && Written(w, entries[..i])
    {
      var e := entries[i];
      assert e in entries;
      w := AddEntry(w, e, if i == 0 then [] else entries[i - 1].key, entries[..i]);
      assert entries[..i + 1] == entries[..i] + [e];
      i := i + 1;
    }
    assert entries[..i] == entries;
    BlockOpen(w, Packing(entries).1);
    PackLast(entries);
    if w.block != [] {
      w := FlushBlock(w, entries[|entries| - 1].key, Packing(entries).0, Packing(entries).1);
    }
  }

  /** The writer stands where packing `done` leads. */
  ghost predicate Written(w: Writer, done: seq<Entry>) {
    (forall e :: e in done ==> EntryFits(e)) && Flushed(w, Packing(done).0) && Open(w, Packing(done).1)
  }

  lemma NothingPacked()
    ensures Packing([]) == ([], [])
  {
  }

  /** The open block ends with the last entry. */
  lemma PackLast(es: seq<Entry>)
    requires forall e :: e in es ==> EntryFits(e)
    ensures if es == [] then Packing(es) == ([], [])
            else Packing(es).1 != [] && LastKey(Packing(es).1) == es[|es| - 1].key
  {
    hide AllOk, CellsOk, Flatten, Overflows, Packing, CellAfter, EntryFits;
    NothingPacked();
    if es != [] {
      var front, e := es[..|es| - 1], es[|es| - 1];
      assert front + [e] == es && e in es;
      PackOne(front, e);
      CellAfterEntry([], e);
      CellAfterEntry(Packing(front).1, e);
    }
  }

  lemma AllDone(blocks: Blocks, cells: seq<Cell>, done: seq<Entry>)
    requires AllOk(blocks, cells, done)
    ensures BlocksOk(All(blocks, cells)) && Packed(All(blocks, cells)) && Flatten(All(blocks, cells)) == done
  {
  }

  lemma WriterStarts()
    ensures var w := Writer([], [], 0, [], [], [], 0); Flushed(w, []) && Open(w, [])
    ensures AllOk([], [], [])
  {
    Crc.ChunkingIsInvisible([], []);
  }

  /** One turn of the writer: choose the shared prefix, cut the block if need be, add the entry. */
  method AddEntry(w: Writer, e: Entry, previous: Key, ghost done: seq<Entry>) returns (w': Writer)
    requires Written(w, done) && EntryFits(e) && (done != [] ==> previous == done[|done| - 1].key)
    ensures Written(w', done + [e])
  {
    hide BlockBytes, CellAfter, AllOk, CellsBytes, Restarts, Flatten, BlocksBytes, IndexOf, Crc.Checksum, Packing;
    ghost var blocks, cells := Packing(done).0, Packing(done).1;
    w' := w;
    PackOne(done, e);
    PackLast(done);
    BlockOpen(w, cells);
    var shared := 0;
    if w.counter % RESTART_INTERVAL != 0 && w.block != [] {
      shared := SharedPrefix(w.lastKey, e.key);
    }
    Estimate(w, cells, e, shared);
    var size := CellSize(Cell(shared, e));
    var trailer := 4 * (|w.restarts| + if shared == 0 then 1 else 0) + 4;
    if w.block != [] && |w.block| + size + trailer > BLOCK_LIMIT {
      w' := FlushBlock(w, previous, blocks, cells);
      cells, shared := [], 0;
      assert [] + [CellAfter([], e)] == [CellAfter([], e)];
    }
    w' := Append(w', e, shared, cells);
  }

  /** The index, the filter and the footer follow the blocks; the checksum runs over all but the footer. */
  method WriteTable(entries: seq<Entry>, hashes: nat, bits: Bytes) returns (file: Bytes)
    requires forall e :: e in entries ==> EntryFits(e)
    ensures file == Payload(Pack(entries), hashes, bits) + Footer(Pack(entries), hashes, bits)
  {
    hide BlocksBytes, IndexOf, U32, Packed, Pack, Flatten, Crc.Checksum, Crc.Extend, IndexEntryBytes;
    ghost var blocks := Pack(entries);
    var w := WriteBlocks(entries);
    var out, checksum := w.out, w.checksum;
    var i := 0;
    while i < |w.index|
      invariant i <= |w.index| && out == w.out + IndexBytes(w.index[..i]) && checksum == Crc.Checksum(out)
    {
      var b := IndexEntryBytes(w.index[i]);
      IndexAppend(w.index[..i], w.index[i]);
      assert w.index[..i + 1] == w.index[..i] + [w.index[i]];
      Crc.ChunkingIsInvisible(out, b);
      checksum := Crc.Extend(checksum, b);
      out := out + b;
      i := i + 1;
    }
    assert w.index[..i] == w.index;
    var start, end := |w.out|, |out|;
    Crc.ChunkingIsInvisible(out, U32(hashes));
    checksum := Crc.Extend(checksum, U32(hashes));
    out := out + U32(hashes);
    Crc.ChunkingIsInvisible(out, bits);
    checksum := Crc.Extend(checksum, bits);
    out := out + bits;
    assert out == Payload(blocks, hashes, bits);
    file := out + (U32(start) + U32(end) + U32(4 + |bits|) + U32(checksum as int));
  }
}
