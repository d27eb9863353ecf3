/** Data blocks: prefix-compressed entries with restart points, written once and searched. */
module Block {
  import opened Keys
  import opened Codec
  import opened Lsm

  const VALUE_SIZE: nat := 16
  const RESTART_INTERVAL: nat := 16
  const BLOCK_LIMIT: nat := 4096

  /** An entry as stored: how many leading key bytes it takes from its predecessor. */
  datatype Cell = Cell(shared: nat, entry: Entry)

  ghost predicate PointerFits(p: Pointer) {
    p.fileId < TWO32 && p.offset < TWO64 && p.length < TWO32
  }

  /** `shared` bytes of `k` equal the start of `prev`. */
  ghost predicate SharesPrefix(prev: Key, k: Key, shared: nat) {
    shared <= |prev| && shared <= |k| && prev[..shared] == k[..shared]
  }

  /** Each cell can be rebuilt from the one before it; the first needs nothing. */
  ghost predicate CellsOk(cells: seq<Cell>) {
    forall i :: 0 <= i < |cells| ==> CellOk(cells, i)
  }

  ghost predicate CellOk(cells: seq<Cell>, i: nat)
    requires i < |cells|
  {
    && |cells[i].entry.key| < TWO32 && PointerFits(cells[i].entry.ptr)
    && SharesPrefix(if i == 0 then [] else cells[i - 1].entry.key, cells[i].entry.key, cells[i].shared)
  }

  function PointerBytes(p: Pointer): (b: Bytes)
    ensures |b| == VALUE_SIZE
  {
    U32(p.fileId) + U64(p.offset) + U32(p.length)
  }

  function CellBytes(c: Cell): (b: Bytes)
    requires c.shared <= |c.entry.key|
    ensures |b| == CellSize(c)
  {
    U32(c.shared) + U32(|c.entry.key| - c.shared) + U32(VALUE_SIZE)
    + c.entry.key[c.shared..] + PointerBytes(c.entry.ptr)
  }

  function CellSize(c: Cell): nat
    requires c.shared <= |c.entry.key|
  {
    12 + (|c.entry.key| - c.shared) + VALUE_SIZE
  }

  ghost predicate Sized(cells: seq<Cell>) {
    forall i :: 0 <= i < |cells| ==> cells[i].shared <= |cells[i].entry.key|
  }

  ghost function CellsBytes(cells: seq<Cell>): Bytes
    requires Sized(cells)
  {
    if cells == [] then [] else CellsBytes(cells[..|cells| - 1]) + CellBytes(cells[|cells| - 1])
  }

  ghost function Offset(cells: seq<Cell>, i: nat): nat
    requires Sized(cells) && i <= |cells|
  {
    if i == 0 then 0 else Offset(cells, i - 1) + CellSize(cells[i - 1])
  }

  /** The cells that are restart points: those that share nothing. */
  ghost function RestartCells(cells: seq<Cell>): (r: seq<nat>)
    ensures forall j :: 0 <= j < |r| ==> r[j] < |cells| && cells[r[j]].shared == 0
    ensures forall i :: 0 <= i < |cells| && cells[i].shared == 0 ==> i in r
    ensures forall i, j :: 0 <= i < j < |r| ==> r[i] < r[j]
  {
    if cells == [] then []
    else
      var n := |cells| - 1;
      var front := RestartCells(cells[..n]);
      if cells[n].shared == 0 then front + [n] else front
  }

  ghost function Restarts(cells: seq<Cell>): seq<nat>
    requires Sized(cells)
  {
    var r := RestartCells(cells);
    seq(|r|, j requires 0 <= j < |r| => Offset(cells, r[j]))
  }

  function WordsBytes(ws: seq<nat>): (b: Bytes)
    ensures |b| == 4 * |ws|
  {
    if ws == [] then [] else WordsBytes(ws[..|ws| - 1]) + U32(ws[|ws| - 1])
  }

  ghost function BlockBytes(cells: seq<Cell>): Bytes
    requires Sized(cells)
  {
    var rs := Restarts(cells);
    CellsBytes(cells) + WordsBytes(rs) + U32(|rs|)
  }

  // -------------------------------------------------------------- reading

  function Word(b: Bytes, off: nat): (n: nat)
    requires off + 4 <= |b|
    ensures n < TWO32
  {
    Value32(b[off..off + 4])
  }

  function ReadPointer(b: Bytes, off: nat): Pointer
    requires off + VALUE_SIZE <= |b|
  {
    Pointer(Word(b, off), Value64(b[off + 4..off + 12]), Word(b, off + 12))
  }

  /** `std::string::resize`: cut, or pad with zero bytes. */
  function Resized(k: Key, n: nat): Key {
    if n <= |k| then k[..n] else k + seq(n - |k|, _ => 0)
  }

  datatype Parsed = Corrupt | Decoded(key: Key, ptr: Pointer, next: nat)

  /** Decodes the entry at `off`, given the key before it; entries end at `limit`. */
  function ParseEntry(b: Bytes, off: nat, limit: nat, prev: Key, stale: Pointer): (r: Parsed)
    requires limit <= |b|
    ensures r.Decoded? ==> off + 12 <= r.next <= limit
  {
    if off + 12 > limit then Corrupt
    else
      var shared, unshared, size := Word(b, off), Word(b, off + 4), Word(b, off + 8);
      var p := off + 12;
      if p + unshared + size > limit then Corrupt
      else
        var ptr := if size == VALUE_SIZE then ReadPointer(b, p + unshared) else stale;
        Decoded(Resized(prev, shared) + b[p..p + unshared], ptr, p + unshared + size)
  }

  // ------------------------------------------------------- layout of a block

  lemma {:induction false} CellsBytesLength(cells: seq<Cell>)
    requires Sized(cells)
    ensures |CellsBytes(cells)| == Offset(cells, |cells|)
  {
    if cells != [] {
      var n := |cells| - 1;
      CellsBytesLength(cells[..n]);
      OffsetPrefix(cells, n, n);
    }
  }

  lemma {:induction false} OffsetPrefix(cells: seq<Cell>, n: nat, i: nat)
    requires Sized(cells) && i <= n <= |cells|
    ensures Offset(cells[..n], i) == Offset(cells, i)
  {
    if i > 0 {
      OffsetPrefix(cells, n, i - 1);
    }
  }

  lemma {:induction false} OffsetMonotone(cells: seq<Cell>, i: nat, j: nat)
    requires Sized(cells) && i < j <= |cells|
    ensures Offset(cells, i) + 28 <= Offset(cells, j)
  {
    if i < j - 1 {
      OffsetMonotone(cells, i, j - 1);
    }
  }

  /** The bytes of cell `i` lie between its offset and the next. */
  lemma {:induction false} CellSlice(cells: seq<Cell>, i: nat)
    requires Sized(cells) && i < |cells|
    ensures Offset(cells, i) + CellSize(cells[i]) <= |CellsBytes(cells)|
    ensures CellsBytes(cells)[Offset(cells, i)..Offset(cells, i) + CellSize(cells[i])] == CellBytes(cells[i])
  {
    hide CellBytes;
    var n := |cells| - 1;
    CellsBytesLength(cells[..n]);
    if i < n {
      CellSlice(cells[..n], i);
      OffsetPrefix(cells, n, i);
    } else {
      OffsetPrefix(cells, n, n);
    }
  }

  lemma {:induction false} WordSlice(ws: seq<nat>, j: nat)
    requires j < |ws| && ws[j] < TWO32
    ensures Word(WordsBytes(ws), 4 * j) == ws[j]
  {
    hide U32;
    var n := |ws| - 1;
    if j < n {
      WordSlice(ws[..n], j);
      assert WordsBytes(ws)[4 * j..4 * j + 4] == WordsBytes(ws[..n])[4 * j..4 * j + 4];
    } else {
      RoundTrip32(ws[n]);
      assert WordsBytes(ws)[4 * j..4 * j + 4] == U32(ws[n]);
    }
  }

  ghost predicate Fields(c: Cell, b: Bytes)
    requires c.shared <= |c.entry.key| && |b| == CellSize(c)
  {
    var n := |c.entry.key| - c.shared;
    && b[..4] == U32(c.shared) && b[4..8] == U32(n) && b[8..12] == U32(VALUE_SIZE)
    && b[12..12 + n] == c.entry.key[c.shared..] && b[12 + n..] == PointerBytes(c.entry.ptr)
  }

  lemma CellFields(c: Cell)
    requires c.shared <= |c.entry.key|
    ensures Fields(c, CellBytes(c))
  {
    hide U32, PointerBytes;
  }

  lemma PointerRoundTrip(p: Pointer, b: Bytes, off: nat)
    requires PointerFits(p) && off + VALUE_SIZE <= |b| && b[off..off + VALUE_SIZE] == PointerBytes(p)
    ensures ReadPointer(b, off) == p
  {
    hide U32, U64;
    var s := PointerBytes(p);
    SliceWithin(b, off, off + VALUE_SIZE, s, 0, 4);
    SliceWithin(b, off, off + VALUE_SIZE, s, 4, 12);
    SliceWithin(b, off, off + VALUE_SIZE, s, 12, 16);
    assert s[0..4] == U32(p.fileId) && s[4..12] == U64(p.offset) && s[12..16] == U32(p.length);
    RoundTrip32(p.fileId);
    RoundTrip64(p.offset);
    RoundTrip32(p.length);
  }

  /** Where a block's entries end. */
  ghost function EntriesEnd(cells: seq<Cell>): nat
    requires Sized(cells)
  {
    Offset(cells, |cells|)
  }

  ghost predicate IsBlock(b: Bytes, cells: seq<Cell>) {
    CellsOk(cells) && Sized(cells) && b == BlockBytes(cells) && |b| < TWO32
  }

  lemma BlockParts(b: Bytes, cells: seq<Cell>)
    requires IsBlock(b, cells)
    ensures var rs := Restarts(cells); var end := EntriesEnd(cells);
            && |b| == end + 4 * |rs| + 4
            && b[..end] == CellsBytes(cells) && b[end..end + 4 * |rs|] == WordsBytes(rs)
            && Word(b, |b| - 4) == |rs|
  {
    hide U32, WordsBytes, CellsBytes, Restarts;
    CellsBytesLength(cells);
    var rs := Restarts(cells);
    assert b[|b| - 4..|b|] == U32(|rs|);
    RoundTrip32(|rs|);
  }

  ghost predicate CellFits(c: Cell) {
    c.shared <= |c.entry.key| < TWO32 && PointerFits(c.entry.ptr)
  }

  lemma HeaderWords(b: Bytes, off: nat, c: Cell)
    requires CellFits(c) && off + CellSize(c) <= |b| && b[off..off + CellSize(c)] == CellBytes(c)
    ensures Word(b, off) == c.shared && Word(b, off + 4) == |c.entry.key| - c.shared && Word(b, off + 8) == VALUE_SIZE
  {
    hide U32, Value32, PointerBytes, CellBytes;
    CellFields(c);
    var s, size, n := CellBytes(c), CellSize(c), |c.entry.key| - c.shared;
    SliceWithin(b, off, off + size, s, 0, 4);
    SliceWithin(b, off, off + size, s, 4, 8);
    SliceWithin(b, off, off + size, s, 8, 12);
    RoundTrip32(c.shared);
    RoundTrip32(n);
    RoundTrip32(VALUE_SIZE);
  }

  lemma PayloadParts(b: Bytes, off: nat, c: Cell)
    requires CellFits(c) && off + CellSize(c) <= |b| && b[off..off + CellSize(c)] == CellBytes(c)
    ensures var p, n := off + 12, |c.entry.key| - c.shared;
            b[p..p + n] == c.entry.key[c.shared..] && ReadPointer(b, p + n) == c.entry.ptr
  {
    hide U32, PointerBytes, CellBytes, ReadPointer;
    CellFields(c);
    var s, size, n := CellBytes(c), CellSize(c), |c.entry.key| - c.shared;
    SliceWithin(b, off, off + size, s, 12, 12 + n);
    SliceWithin(b, off, off + size, s, 12 + n, size);
    PointerRoundTrip(c.entry.ptr, b, off + 12 + n);
  }

  /** Decoding undoes encoding, given a key that starts like the predecessor. */
  lemma ParseRoundTrip(b: Bytes, off: nat, limit: nat, c: Cell, prev: Key, stale: Pointer)
    requires CellFits(c) && off + CellSize(c) <= limit <= |b| && b[off..off + CellSize(c)] == CellBytes(c)
    requires SharesPrefix(prev, c.entry.key, c.shared)
    ensures ParseEntry(b, off, limit, prev, stale) == Decoded(c.entry.key, c.entry.ptr, off + CellSize(c))
  {
    hide Word, ReadPointer, CellBytes;
    HeaderWords(b, off, c);
    PayloadParts(b, off, c);
    assert Resized(prev, c.shared) == c.entry.key[..c.shared];
    assert c.entry.key[..c.shared] + c.entry.key[c.shared..] == c.entry.key;
  }

  /** Reading at a cell's offset gives back its entry. */
  lemma ParseCell(b: Bytes, cells: seq<Cell>, i: nat, prev: Key, stale: Pointer)
    requires IsBlock(b, cells) && i < |cells|
    requires SharesPrefix(prev, cells[i].entry.key, cells[i].shared)
    ensures EntriesEnd(cells) <= |b|
    ensures ParseEntry(b, Offset(cells, i), EntriesEnd(cells), prev, stale)
         == Decoded(cells[i].entry.key, cells[i].entry.ptr, Offset(cells, i + 1))
  {
    hide CellsBytes, BlockBytes, CellBytes, ParseEntry, WordsBytes, Word;
    BlockParts(b, cells);
    CellAtOffset(b, cells, i);
    assert CellOk(cells, i);
    if i + 1 < |cells| { OffsetMonotone(cells, i + 1, |cells|); }
    ParseRoundTrip(b, Offset(cells, i), EntriesEnd(cells), cells[i], prev, stale);
  }

  lemma CellAtOffset(b: Bytes, cells: seq<Cell>, i: nat)
    requires Sized(cells) && i < |cells| && EntriesEnd(cells) <= |b| && b[..EntriesEnd(cells)] == CellsBytes(cells)
    ensures Offset(cells, i) + CellSize(cells[i]) <= |b|
    ensures b[Offset(cells, i)..Offset(cells, i) + CellSize(cells[i])] == CellBytes(cells[i])
  {
    hide CellsBytes, CellBytes;
    CellsBytesLength(cells);
    CellSlice(cells, i);
    var off, size := Offset(cells, i), CellSize(cells[i]);
    assert b[..EntriesEnd(cells)][off..off + size] == b[off..off + size];
  }

  /** The restart array holds the offsets of the restart cells. */
  lemma RestartWord(b: Bytes, cells: seq<Cell>, j: nat)
    requires IsBlock(b, cells) && j < |Restarts(cells)|
    ensures EntriesEnd(cells) + 4 * j + 4 <= |b|
    ensures Word(b, EntriesEnd(cells) + 4 * j) == Offset(cells, RestartCells(cells)[j])
  {
    hide CellsBytes, BlockBytes, WordsBytes, Value32;
    BlockParts(b, cells);
    var rs, end := Restarts(cells), EntriesEnd(cells);
    OffsetMonotone(cells, RestartCells(cells)[j], |cells|);
    WordSlice(rs, j);
    SliceWithin(b, end, end + 4 * |rs|, WordsBytes(rs), 4 * j, 4 * j + 4);
  }

  // -------------------------------------------------------------- searching

  ghost function Entries(cells: seq<Cell>): seq<Lsm.Entry> {
    seq(|cells|, i requires 0 <= i < |cells| => cells[i].entry)
  }

  /** A non-empty block of entries in key order. */
  ghost predicate IsSortedBlock(b: Bytes, cells: seq<Cell>) {
    IsBlock(b, cells) && cells != [] && Sorted(Entries(cells))
  }

  datatype Answer = Failed | Miss | Hit(ptr: Pointer)

  function AnswerOf(found: Option<Pointer>): Answer {
    if found.Some? then Hit(found.value) else Miss
  }

  lemma FirstRestart(b: Bytes, cells: seq<Cell>)
    requires IsSortedBlock(b, cells)
    ensures RestartCells(cells) != [] && RestartCells(cells)[0] == 0
    ensures |Restarts(cells)| == |RestartCells(cells)| <= (|b| - 4) / 4
  {
    hide BlockBytes;
    assert CellOk(cells, 0);
    var r := RestartCells(cells);
    assert 0 in r;
    BlockParts(b, cells);
  }

  /** At a restart point the whole key is stored. */
  lemma RestartEntry(b: Bytes, cells: seq<Cell>, j: nat)
    requires IsSortedBlock(b, cells) && j < |RestartCells(cells)|
    ensures var i := RestartCells(cells)[j];
            var off, end := Offset(cells, i), EntriesEnd(cells);
            var k := cells[i].entry.key;
            && end + 4 * j + 4 <= |b| && Word(b, end + 4 * j) == off
            && off + 12 + |k| + VALUE_SIZE <= end && Word(b, off + 4) == |k| && Word(b, off + 8) == VALUE_SIZE
            && b[off + 12..off + 12 + |k|] == k && ReadPointer(b, off + 12 + |k|) == cells[i].entry.ptr
  {
    hide BlockBytes, CellsBytes, CellBytes, WordsBytes, Word, ReadPointer, Sorted, Entries, Value32, SharesPrefix;
    var i := RestartCells(cells)[j];
    RestartWord(b, cells, j);
    BlockParts(b, cells);
    CellAtOffset(b, cells, i);
    assert CellOk(cells, i);
    NextOffset(cells, i);
    HeaderWords(b, Offset(cells, i), cells[i]);
    PayloadParts(b, Offset(cells, i), cells[i]);
    assert cells[i].entry.key[0..] == cells[i].entry.key;
  }

  lemma NextOffset(cells: seq<Cell>, i: nat)
    requires Sized(cells) && i < |cells|
    ensures Offset(cells, i) + CellSize(cells[i]) == Offset(cells, i + 1) <= EntriesEnd(cells)
  {
    if i + 1 < |cells| { OffsetMonotone(cells, i + 1, |cells|); }
  }

  /** All cells up to and including `i` come before `k`. */
  ghost predicate BeforeKey(cells: seq<Cell>, n: nat, k: Key)
    requires n <= |cells|
  {
    forall m :: 0 <= m < n ==> Below(cells[m].entry.key, k)
  }

  lemma BeforeRestart(cells: seq<Cell>, i: nat, k: Key)
    requires Sorted(Entries(cells)) && i < |cells| && Below(cells[i].entry.key, k)
    ensures BeforeKey(cells, i + 1, k)
  {
    forall m | 0 <= m < i ensures Below(cells[m].entry.key, k) {
      assert Below(Entries(cells)[m].key, Entries(cells)[i].key);
      BelowTransitive(cells[m].entry.key, cells[i].entry.key, k);
    }
  }

  lemma FoundAt(cells: seq<Cell>, i: nat, k: Key)
    requires Sorted(Entries(cells)) && i < |cells| && cells[i].entry.key == k
    ensures Find(Entries(cells), k) == Some(cells[i].entry.ptr)
  {
    FindAt(Entries(cells), i);
  }

  lemma NotFound(cells: seq<Cell>, n: nat, k: Key)
    requires Sorted(Entries(cells)) && n <= |cells| && BeforeKey(cells, n, k)
    requires n < |cells| ==> Below(k, cells[n].entry.key)
    ensures Find(Entries(cells), k).None?
  {
    forall m | 0 <= m < |cells| ensures Entries(cells)[m].key != k {
      BelowIrreflexive(k);
      if m > n {
        assert Below(Entries(cells)[n].key, Entries(cells)[m].key);
        BelowTransitive(k, cells[n].entry.key, cells[m].entry.key);
      }
    }
  }

  /** What the restart search knows between rounds. */
  ghost predicate Narrowed(cells: seq<Cell>, k: Key, left: int, right: int, target: nat) {
    var r := RestartCells(cells);
    && 0 <= left <= right + 1 <= |r| && target < |r|
    && (if left == 0 then target == 0 else target == left - 1 && Below(cells[r[target]].entry.key, k))
  }

  /** One probe of the restart search. */
  datatype Probe = Broken | Probe(key: Key, ptr: Pointer)

  function ProbeAt(b: Bytes, end: nat, j: nat): Probe
    requires end + 4 * j + 4 <= |b|
  {
    var off := Word(b, end + 4 * j);
    if off + 12 > end then Broken
    else
      var unshared, size := Word(b, off + 4), Word(b, off + 8);
      var p := off + 12;
      if p + unshared + size > end then Broken
      else Probe(b[p..p + unshared], if size == VALUE_SIZE then ReadPointer(b, p + unshared) else Pointer(0, 0, 0))
  }

  lemma ProbeRestart(b: Bytes, cells: seq<Cell>, j: nat)
    requires IsSortedBlock(b, cells) && j < |RestartCells(cells)|
    ensures var i := RestartCells(cells)[j];
            && i < |cells| && EntriesEnd(cells) + 4 * j + 4 <= |b|
            && ProbeAt(b, EntriesEnd(cells), j) == Probe(cells[i].entry.key, cells[i].entry.ptr)
  {
    hide BlockBytes, Word, ReadPointer, IsBlock, Offset;
    RestartEntry(b, cells, j);
  }

  /** Facts about the trailer that the search starts from. */
  lemma SearchStart(b: Bytes, cells: seq<Cell>)
    requires IsSortedBlock(b, cells)
    ensures |b| >= 4 && var count := Word(b, |b| - 4);
            && 0 < count <= (|b| - 4) / 4 && |b| - 4 - count * 4 == EntriesEnd(cells)
            && count == |RestartCells(cells)| && RestartCells(cells)[0] == 0
  {
    hide BlockBytes, Word;
    FirstRestart(b, cells);
    BlockParts(b, cells);
  }

  /** Binary search over the restart points, then a scan from the chosen one. */
  method SearchBlock(b: Bytes, k: Key, ghost cells: seq<Cell>) returns (r: Answer)
    ensures IsSortedBlock(b, cells) ==> r == AnswerOf(Find(Entries(cells), k))
  {
    hide Word, ProbeAt, EntriesEnd, RestartCells, Find, IsBlock, Sorted, Offset;
    ghost var good := IsSortedBlock(b, cells);
    if good { SearchStart(b, cells); }
    if |b| < 4 { return Miss; }
    var count := Word(b, |b| - 4);
    if count == 0 || count > (|b| - 4) / 4 { return Miss; }
    var end := |b| - 4 - count * 4;
    var left, right := 0, count - 1;
    var target: nat := 0;
    while left <= right
      invariant 0 <= left && right < count && target < count
      invariant good ==> Narrowed(cells, k, left, right, target)
      decreases right - left + 1
    {
      var mid: nat := left + (right - left) / 2;
      if good { ProbeRestart(b, cells, mid); }
      var probe := ProbeAt(b, end, mid);
      if probe.Broken? { return Failed; }
      BelowTotal(probe.key, k);
      if Below(probe.key, k) {
        target := mid;
        left := mid + 1;
      } else if Below(k, probe.key) {
        right := mid - 1;
      } else {
        if good { FoundAt(cells, RestartCells(cells)[mid], k); }
        return Hit(probe.ptr);
      }
    }
    if good { ChosenRestart(b, cells, k, left, right, target); }
    var start := Word(b, end + target * 4);
    if start > end { return Failed; }
    r := ScanBlock(b, k, start, end, cells, if good then RestartCells(cells)[target] else 0);
  }

  /** The scan starts at a restart cell, and everything before it is smaller than the key. */
  ghost predicate ScanReady(b: Bytes, k: Key, start: nat, end: nat, cells: seq<Cell>, first: nat) {
    && IsSortedBlock(b, cells) && end == EntriesEnd(cells) && first < |cells| && cells[first].shared == 0
    && start == Offset(cells, first) && BeforeKey(cells, first, k)
  }

  lemma ChosenRestart(b: Bytes, cells: seq<Cell>, k: Key, left: int, right: int, target: nat)
    requires IsSortedBlock(b, cells) && Narrowed(cells, k, left, right, target) && RestartCells(cells)[0] == 0
    ensures var end, first := EntriesEnd(cells), RestartCells(cells)[target];
            && end + target * 4 + 4 <= |b| && Word(b, end + target * 4) <= end
            && ScanReady(b, k, Word(b, end + target * 4), end, cells, first)
  {
    hide Word, BlockBytes, IsBlock, Sorted;
    RestartEntry(b, cells, target);
    if left > 0 { BeforeRestart(cells, RestartCells(cells)[target], k); }
  }

  /** The scan stands before cell `i` with its predecessor's key in hand. */
  ghost predicate Scanned(cells: seq<Cell>, first: nat, i: nat, p: nat, k: Key, current: Key)
    requires Sized(cells)
  {
    && first <= i <= |cells| && p == Offset(cells, i) && BeforeKey(cells, i, k)
    && current == if i == first then [] else cells[i - 1].entry.key
  }

  lemma ScanTurn(b: Bytes, k: Key, start: nat, end: nat, cells: seq<Cell>, first: nat, i: nat, p: nat, current: Key)
    requires ScanReady(b, k, start, end, cells, first) && Scanned(cells, first, i, p, k, current) && p < end <= |b|
    ensures i < |cells|
    ensures ParseEntry(b, p, end, current, Pointer(0, 0, 0))
         == Decoded(cells[i].entry.key, cells[i].entry.ptr, Offset(cells, i + 1))
    ensures Below(cells[i].entry.key, k) ==>
              Scanned(cells, first, i + 1, Offset(cells, i + 1), k, cells[i].entry.key)
  {
    hide BlockBytes, ParseEntry, Sorted, IsBlock, Entries, Offset, SharesPrefix, Below;
    ScanShares(b, k, start, end, cells, first, i, p, current);
    ParseCell(b, cells, i, current, Pointer(0, 0, 0));
  }

  /** The key in hand starts like the next cell's. */
  lemma ScanShares(b: Bytes, k: Key, start: nat, end: nat, cells: seq<Cell>, first: nat, i: nat, p: nat, current: Key)
    requires ScanReady(b, k, start, end, cells, first) && Scanned(cells, first, i, p, k, current) && p < end <= |b|
    ensures i < |cells| && SharesPrefix(current, cells[i].entry.key, cells[i].shared)
  {
    hide BlockBytes, ParseEntry, Sorted, BeforeKey;
    assert i < |cells| ==> CellOk(cells, i);
  }

  /** The linear scan: rebuild each key from the last, stop at or past the wanted one. */
  method ScanBlock(b: Bytes, k: Key, start: nat, end: nat, ghost cells: seq<Cell>, ghost first: nat) returns (r: Answer)
    requires start <= end <= |b|
    ensures ScanReady(b, k, start, end, cells, first) ==> r == AnswerOf(Find(Entries(cells), k))
  {
    hide Find, IsBlock, Sorted, ParseEntry, Scanned, BeforeKey;
    ghost var good := ScanReady(b, k, start, end, cells, first);
    var p, current := start, [];
    ghost var i := first;
    if good { ScanBegins(b, k, start, end, cells, first); }
    while p < end
      invariant p <= end
      invariant good ==> Sized(cells) && Scanned(cells, first, i, p, k, current)
      decreases end - p
    {
      if good { ScanTurn(b, k, start, end, cells, first, i, p, current); }
      var e := ParseEntry(b, p, end, current, Pointer(0, 0, 0));
      if e.Corrupt? { return Failed; }
      if good { ScanEnds(cells, first, i, p, k, current); }
      current, p := e.key, e.next;
      BelowTotal(current, k);
      if current == k {
        return Hit(e.ptr);
      } else if Below(k, current) {
        return Miss;
      }
      i := i + 1;
    }
    if good { ScanEnds(cells, first, i, p, k, current); }
    r := Miss;
  }

  lemma ScanBegins(b: Bytes, k: Key, start: nat, end: nat, cells: seq<Cell>, first: nat)
    requires ScanReady(b, k, start, end, cells, first)
    ensures Sized(cells) && Scanned(cells, first, first, start, k, [])
  {
  }

  /** What stopping before cell `i` says about the key. */
  lemma ScanEnds(cells: seq<Cell>, first: nat, i: nat, p: nat, k: Key, current: Key)
    requires Sized(cells) && Sorted(Entries(cells)) && Scanned(cells, first, i, p, k, current)
    ensures i < |cells| && cells[i].entry.key == k ==> Find(Entries(cells), k) == Some(cells[i].entry.ptr)
    ensures i < |cells| && Below(k, cells[i].entry.key) ==> Find(Entries(cells), k).None?
    ensures p >= EntriesEnd(cells) ==> Find(Entries(cells), k).None?
  {
    hide Sorted, Find;
    if i < |cells| {
      OffsetMonotone(cells, i, |cells|);
      if cells[i].entry.key == k { FoundAt(cells, i, k); }
      if Below(k, cells[i].entry.key) { NotFound(cells, i, k); }
    } else {
      NotFound(cells, i, k);
    }
  }
}
