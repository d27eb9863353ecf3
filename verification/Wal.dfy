/** The write-ahead log: checksummed records, buffered appends, and replay of a possibly damaged file. */
module Wal {
  import opened Keys
  import opened Codec
  import Crc

  const HEADER: nat := 24
  const MAX_FIELD_SIZE: nat := 64 * 1024 * 1024
  const TOMBSTONE_MARK: nat := 0xFFFF_FFFF

  /** A record's content; a delete carries the tombstone mark as its length. */
  datatype Record = Record(key: Key, ptr: Pointer)

  ghost predicate Fits(r: Record) {
    |r.key| < TWO32 && r.ptr.fileId < TWO32 && r.ptr.offset < TWO64 && r.ptr.length < TWO32
  }

  /** What replay will accept: a key of at most 64 MiB. */
  ghost predicate Readable(r: Record) {
    Fits(r) && |r.key| <= MAX_FIELD_SIZE
  }

  /** The record of a delete. */
  function DeleteRecord(key: Key): Record {
    Record(key, Pointer(0, 0, TOMBSTONE_MARK))
  }

  function Fields(r: Record): (b: Bytes)
    ensures |b| == 20
  {
    U32(|r.key|) + U32(r.ptr.fileId) + U64(r.ptr.offset) + U32(r.ptr.length)
  }

  function RecordBytes(r: Record): (b: Bytes)
    ensures |b| == HEADER + |r.key|
  {
    Fields(r) + U32(Crc.Crc32(Fields(r) + r.key)) + r.key
  }

  function LogBytes(rs: seq<Record>): Bytes {
    if rs == [] then [] else RecordBytes(rs[0]) + LogBytes(rs[1..])
  }

  // ---------------------------------------------------------------- replay

  datatype Entry = Entry(key: Key, ptr: Pointer, tombstone: bool)

  datatype Replayed = Replayed(entries: seq<Entry>, tainted: bool)

  /** How a record reads back: the mark stands for a delete. */
  function EntryOf(r: Record): Entry {
    if r.ptr.length == TOMBSTONE_MARK then Entry(r.key, Pointer(0, 0, 0), true) else Entry(r.key, r.ptr, false)
  }

  function EntriesOf(rs: seq<Record>): (es: seq<Entry>)
    ensures |es| == |rs|
  {
    seq(|rs|, i requires 0 <= i < |rs| => EntryOf(rs[i]))
  }

  /** One turn of replay on the bytes that are left. */
  datatype Turn = AtEnd | Broken | Next(entry: Entry, size: nat)

  function ReadRecord(b: Bytes): (t: Turn)
    ensures t.Next? ==> HEADER <= t.size <= |b|
  {
    if |b| < 4 then AtEnd
    else if |b| < HEADER then Broken
    else
      var keySize := Value32(b[..4]);
      if keySize > MAX_FIELD_SIZE || |b| < HEADER + keySize then Broken
      else
        var key := b[HEADER..HEADER + keySize];
        if Value32(b[20..24]) != Crc.Crc32(b[..20] + key) then Broken
        else Next(EntryOf(Record(key, Pointer(Value32(b[4..8]), Value64(b[8..16]), Value32(b[16..20])))),
                  HEADER + keySize)
  }

  function Replay(b: Bytes): Replayed {
    var t := ReadRecord(b);
    if t.Next? then
      var rest := Replay(b[t.size..]);
      Replayed([t.entry] + rest.entries, rest.tainted)
    else Replayed([], t.Broken?)
  }

  lemma FieldParts(r: Record)
    ensures Fields(r)[..4] == U32(|r.key|) && Fields(r)[4..8] == U32(r.ptr.fileId)
    ensures Fields(r)[8..16] == U64(r.ptr.offset) && Fields(r)[16..20] == U32(r.ptr.length)
  {
    hide U32, U64;
  }

  lemma FieldValues(r: Record)
    requires Fits(r)
    ensures var f := Fields(r);
            && Value32(f[..4]) == |r.key| && Value32(f[4..8]) == r.ptr.fileId
            && Value64(f[8..16]) == r.ptr.offset && Value32(f[16..20]) == r.ptr.length
  {
    hide U32, U64, Value32, Value64, Fields;
    FieldParts(r);
    RoundTrip32(|r.key|);
    RoundTrip32(r.ptr.fileId);
    RoundTrip64(r.ptr.offset);
    RoundTrip32(r.ptr.length);
  }

  lemma RecordParts(r: Record, rest: Bytes)
    ensures var b := RecordBytes(r) + rest;
            && b[..20] == Fields(r) && b[20..24] == U32(Crc.Crc32(Fields(r) + r.key))
            && b[HEADER..HEADER + |r.key|] == r.key && b[HEADER + |r.key|..] == rest
            && b[..4] == Fields(r)[..4] && b[4..8] == Fields(r)[4..8]
            && b[8..16] == Fields(r)[8..16] && b[16..20] == Fields(r)[16..20]
  {
    hide U32, Fields;
    var b := RecordBytes(r) + rest;
    assert b[..20] == Fields(r);
    assert b[..4] == b[..20][..4] && b[4..8] == b[..20][4..8] && b[8..16] == b[..20][8..16]
           && b[16..20] == b[..20][16..20];
  }

  /** A whole record reads back. */
  lemma ReadWhole(r: Record, rest: Bytes)
    requires Readable(r)
    ensures ReadRecord(RecordBytes(r) + rest) == Next(EntryOf(r), HEADER + |r.key|)
  {
    hide U32, Value32, Value64, Fields, RecordBytes, Crc.Crc32;
    RecordParts(r, rest);
    FieldValues(r);
    RoundTrip32(Crc.Crc32(Fields(r) + r.key));
  }

  /** Replay goes through whole records and on to whatever follows them. */
  lemma {:induction false} ReplayThrough(rs: seq<Record>, rest: Bytes)
    requires forall r :: r in rs ==> Readable(r)
    ensures Replay(LogBytes(rs) + rest) == Replayed(EntriesOf(rs) + Replay(rest).entries, Replay(rest).tainted)
    decreases |rs|
  {
    hide RecordBytes, EntryOf, Replay;
    if rs == [] {
      assert LogBytes(rs) + rest == rest;
      assert EntriesOf(rs) + Replay(rest).entries == Replay(rest).entries;
    } else {
      var tail := LogBytes(rs[1..]) + rest;
      assert LogBytes(rs) + rest == RecordBytes(rs[0]) + tail;
      assert rs[0] in rs;
      ReplayOne(rs[0], tail);
      ReplayThrough(rs[1..], rest);
      assert EntriesOf(rs) == [EntryOf(rs[0])] + EntriesOf(rs[1..]);
    }
  }

  lemma ReplayOne(r: Record, tail: Bytes)
    requires Readable(r)
    ensures Replay(RecordBytes(r) + tail) == Replayed([EntryOf(r)] + Replay(tail).entries, Replay(tail).tainted)
  {
    hide RecordBytes, ReadRecord, EntryOf;
    ReadWhole(r, tail);
    assert (RecordBytes(r) + tail)[HEADER + |r.key|..] == tail;
  }

  lemma {:induction false} LogAppend(a: seq<Record>, b: seq<Record>)
    ensures LogBytes(a + b) == LogBytes(a) + LogBytes(b)
  {
    hide RecordBytes;
    if a == [] {
      assert a + b == b;
    } else {
      assert (a + b)[1..] == a[1..] + b;
      LogAppend(a[1..], b);
    }
  }

  lemma LogOne(r: Record)
    ensures LogBytes([r]) == RecordBytes(r)
  {
    hide RecordBytes;
    assert [r][1..] == [];
  }

  lemma ReplayEmpty()
    ensures Replay([]) == Replayed([], false)
  {
  }

  /** An intact log of readable records replays completely and untainted. */
  lemma ReplayIntact(rs: seq<Record>)
    requires forall r :: r in rs ==> Readable(r)
    ensures Replay(LogBytes(rs)) == Replayed(EntriesOf(rs), false)
  {
    hide LogBytes, Replay;
    ReplayThrough(rs, []);
    ReplayEmpty();
    assert LogBytes(rs) + [] == LogBytes(rs);
    assert EntriesOf(rs) + [] == EntriesOf(rs);
  }

  lemma LogNext(rs: seq<Record>, i: nat)
    requires i < |rs|
    ensures LogBytes(rs[..i + 1]) == LogBytes(rs[..i]) + RecordBytes(rs[i])
  {
    hide LogBytes, RecordBytes;
    assert rs[..i] + [rs[i]] == rs[..i + 1];
    LogAppend(rs[..i], [rs[i]]);
    LogOne(rs[i]);
  }

  /** Splits a log at record `i`. */
  lemma LogSplit(rs: seq<Record>, i: nat)
    requires i < |rs|
    ensures LogBytes(rs) == LogBytes(rs[..i]) + RecordBytes(rs[i]) + LogBytes(rs[i + 1..])
  {
    hide LogBytes, RecordBytes;
    LogNext(rs, i);
    assert rs[..i + 1] + rs[i + 1..] == rs;
    LogAppend(rs[..i + 1], rs[i + 1..]);
  }

  /** A record whose key is too long stops replay there. */
  lemma ReadOversize(r: Record, rest: Bytes)
    requires Fits(r) && |r.key| > MAX_FIELD_SIZE
    ensures ReadRecord(RecordBytes(r) + rest) == Broken
  {
    hide U32, Value32, Value64, Fields, RecordBytes;
    RecordParts(r, rest);
    FieldValues(r);
  }

  /** An intact log replays completely exactly when no key is longer than 64 MiB. */
  lemma ReplayComplete(rs: seq<Record>)
    requires forall r :: r in rs ==> Fits(r)
    ensures Replay(LogBytes(rs)) == Replayed(EntriesOf(rs), false)
            <==> forall r :: r in rs ==> |r.key| <= 0x400_0000
  {
    hide LogBytes, Replay, RecordBytes;
    if forall r :: r in rs ==> |r.key| <= MAX_FIELD_SIZE {
      ReplayIntact(rs);
    } else {
      var i := FirstOversize(rs);
      assert rs[i] in rs;
      assert forall r :: r in rs[..i] ==> r in rs;
      LogSplit(rs, i);
      var rest := RecordBytes(rs[i]) + LogBytes(rs[i + 1..]);
      assert LogBytes(rs) == LogBytes(rs[..i]) + rest;
      ReplayThrough(rs[..i], rest);
      ReadOversize(rs[i], LogBytes(rs[i + 1..]));
      ReplayBroken(rest);
    }
  }

  lemma ReplayBroken(b: Bytes)
    requires ReadRecord(b) == Broken
    ensures Replay(b) == Replayed([], true)
  {
  }

  lemma {:induction false} FirstOversize(rs: seq<Record>) returns (i: nat)
    requires exists r :: r in rs && |r.key| > MAX_FIELD_SIZE
    ensures i < |rs| && |rs[i].key| > MAX_FIELD_SIZE
    ensures forall r :: r in rs[..i] ==> |r.key| <= MAX_FIELD_SIZE
  {
    if |rs[0].key| > MAX_FIELD_SIZE {
      i := 0;
    } else {
      var r :| r in rs && |r.key| > MAX_FIELD_SIZE;
      assert r in rs[1..];
      var j := FirstOversize(rs[1..]);
      i := j + 1;
      assert rs[..i] == [rs[0]] + rs[1..][..j];
    }
  }

  // ------------------------------------------------------------- truncation

  /** A cut record gives nothing; fewer than four bytes of it look like a clean end. */
  lemma ReadCut(r: Record, n: nat)
    requires Readable(r) && n < |RecordBytes(r)|
    ensures ReadRecord(RecordBytes(r)[..n]) == if n < 4 then AtEnd else Broken
  {
    hide U32, Value32, Value64, Fields, RecordBytes;
    var b := RecordBytes(r)[..n];
    RecordParts(r, []);
    assert RecordBytes(r) + [] == RecordBytes(r);
    FieldValues(r);
    if n >= 4 { assert b[..4] == RecordBytes(r)[..4]; }
  }

  /** Cut anywhere, a log replays to exactly the whole records before the cut, and is tainted
      exactly when four or more bytes of a further record remain. */
  lemma ReplayTruncated(rs: seq<Record>, n: nat, m: nat)
    requires (forall r :: r in rs ==> Readable(r)) && m <= |rs|
    requires |LogBytes(rs[..m])| <= n <= |LogBytes(rs)|
    requires m < |rs| ==> n < |LogBytes(rs[..m + 1])|
    ensures Replay(LogBytes(rs)[..n]) == Replayed(EntriesOf(rs[..m]), n - |LogBytes(rs[..m])| >= 4)
  {
    hide LogBytes, Replay, RecordBytes;
    assert forall r :: r in rs[..m] ==> r in rs;
    var base := |LogBytes(rs[..m])|;
    if m == |rs| {
      assert rs[..m] == rs;
      assert LogBytes(rs)[..n] == LogBytes(rs);
      ReplayIntact(rs);
    } else {
      LogSplit(rs, m);
      LogNext(rs, m);
      assert rs[m] in rs;
      var cut := RecordBytes(rs[m])[..n - base];
      assert LogBytes(rs)[..n] == LogBytes(rs[..m]) + cut;
      ReplayThrough(rs[..m], cut);
      ReadCut(rs[m], n - base);
      ReplayStops(cut);
      assert EntriesOf(rs[..m]) + [] == EntriesOf(rs[..m]);
    }
  }

  lemma ReplayStops(b: Bytes)
    requires !ReadRecord(b).Next?
    ensures Replay(b) == Replayed([], ReadRecord(b).Broken?)
  {
  }

  // ----------------------------------------------------------------- damage

  /** One changed byte past the key size makes the record unreadable. */
  lemma ReadDamaged(r: Record, d: nat, x: Byte, rest: Bytes)
    requires Readable(r) && 4 <= d < |RecordBytes(r)| && RecordBytes(r)[d] != x
    ensures ReadRecord(RecordBytes(r)[d := x] + rest) == Broken
  {
    hide U32, Value32, Value64, Fields, RecordBytes, Crc.Crc32;
    var b, b' := RecordBytes(r) + rest, RecordBytes(r)[d := x] + rest;
    RecordParts(r, rest);
    FieldValues(r);
    assert b'[..4] == b[..4];
    var k := |r.key|;
    if d < 20 || d >= HEADER {
      ContentDamaged(b, b', d, k);
      assert b'[20..24] == b[20..24];
      RoundTrip32(Crc.Crc32(Fields(r) + r.key));
    } else {
      assert b'[..20] == b[..20] && b'[HEADER..HEADER + k] == b[HEADER..HEADER + k];
      RoundTrip32(Crc.Crc32(Fields(r) + r.key));
      assert b'[20..24] != b[20..24] by { assert b'[20..24][d - 20] != b[20..24][d - 20]; }
      Bytes32(b[20..24]);
      Bytes32(b'[20..24]);
    }
  }

  /** A changed content byte changes the content's checksum. */
  lemma ContentDamaged(b: Bytes, b': Bytes, d: nat, k: nat)
    requires |b| == |b'| && HEADER + k <= |b| && d < HEADER + k && (d < 20 || d >= HEADER)
    requires b[d] != b'[d] && forall j :: 0 <= j < |b| && j != d ==> b[j] == b'[j]
    ensures Crc.Crc32(b[..20] + b[HEADER..HEADER + k]) != Crc.Crc32(b'[..20] + b'[HEADER..HEADER + k])
  {
    hide Crc.Crc32, Crc.Checksum;
    var m, m' := b[..20] + b[HEADER..HEADER + k], b'[..20] + b'[HEADER..HEADER + k];
    var i := if d < 20 then d else d - 4;
    assert m[i] == b[d] && m'[i] == b'[d];
    forall j | 0 <= j < |m| && j != i ensures m[j] == m'[j] {
      var at := if j < 20 then j else j + 4;
      assert m[j] == b[at] && m'[j] == b'[at];
    }
    Crc.BurstDetectedAt(m, m', i);
    DifferentCrc(m, m');
  }

  lemma DifferentCrc(a: Bytes, b: Bytes)
    requires Crc.Checksum(a) != Crc.Checksum(b)
    ensures Crc.Crc32(a) != Crc.Crc32(b)
  {
    hide Crc.Checksum, Crc.Crc32;
    if Crc.Crc32(a) == Crc.Crc32(b) { Crc.Crc32Distinct(a, b); }
  }

  /** One changed byte outside the key sizes: replay gives exactly the records before the damaged one. */
  lemma ReplayDamaged(rs: seq<Record>, i: nat, d: nat, x: Byte)
    requires (forall r :: r in rs ==> Readable(r)) && i < |rs| && 4 <= d < |RecordBytes(rs[i])|
    requires RecordBytes(rs[i])[d] != x && |LogBytes(rs[..i])| + d < |LogBytes(rs)|
    ensures Replay(LogBytes(rs)[|LogBytes(rs[..i])| + d := x]) == Replayed(EntriesOf(rs[..i]), true)
  {
    hide LogBytes, Replay, RecordBytes;
    assert rs[i] in rs && forall r :: r in rs[..i] ==> r in rs;
    LogSplit(rs, i);
    var rest := LogBytes(rs[i + 1..]);
    var broken := RecordBytes(rs[i])[d := x] + rest;
    assert LogBytes(rs)[|LogBytes(rs[..i])| + d := x] == LogBytes(rs[..i]) + broken;
    ReplayThrough(rs[..i], broken);
    ReadDamaged(rs[i], d, x, rest);
    ReplayBroken(broken);
    assert EntriesOf(rs[..i]) + [] == EntriesOf(rs[..i]);
  }

  // -------------------------------------------------- what the log cannot carry

  lemma EntriesAppend(rs: seq<Record>, r: Record)
    ensures EntriesOf(rs + [r]) == EntriesOf(rs) + [EntryOf(r)]
  {
  }

  /** A put at the end of a log replays as that put if and only if its length is not the tombstone mark. */
  lemma PutReadsBack(rs: seq<Record>, r: Record)
    requires (forall x :: x in rs ==> Readable(x)) && Readable(r)
    ensures Replay(LogBytes(rs + [r])) == Replayed(EntriesOf(rs) + [Entry(r.key, r.ptr, false)], false)
       <==> r.ptr.length != 0xFFFF_FFFF
  {
    hide LogBytes, Replay, EntriesOf;
    ReplayIntact(rs + [r]);
    EntriesAppend(rs, r);
    var es := EntriesOf(rs);
    assert (es + [EntryOf(r)])[|es|] == EntryOf(r)
           && (es + [Entry(r.key, r.ptr, false)])[|es|] == Entry(r.key, r.ptr, false);
  }

  /** A put of a value of 2^32 - 1 bytes comes back as a delete. */
  lemma MarkedPutLost(key: Key, fileId: nat, offset: nat)
    requires |key| <= MAX_FIELD_SIZE && fileId < TWO32 && offset < TWO64
    ensures var r := Record(key, Pointer(fileId, offset, TOMBSTONE_MARK));
            Replay(LogBytes([r])) == Replayed([Entry(key, Pointer(0, 0, 0), true)], false)
  {
    hide LogBytes, Replay, EntriesOf;
    var r := Record(key, Pointer(fileId, offset, TOMBSTONE_MARK));
    ReplayIntact([r]);
    EntriesAppend([], r);
    assert [] + [r] == [r] && EntriesOf([]) == [];
  }

  /** A log of one record whose key is one byte over 64 MiB replays to nothing. */
  lemma OversizeKeyLost(ptr: Pointer)
    requires ptr.fileId < TWO32 && ptr.offset < TWO64 && ptr.length < TWO32
    ensures Replay(LogBytes([Record(seq(MAX_FIELD_SIZE + 1, _ => 0), ptr)])) == Replayed([], true)
  {
    hide LogBytes, Replay, RecordBytes, ReadRecord;
    var r := Record(seq(MAX_FIELD_SIZE + 1, _ => 0), ptr);
    LogOne(r);
    ReadOversize(r, []);
    assert RecordBytes(r) + [] == RecordBytes(r);
    ReplayBroken(RecordBytes(r));
  }

  // --------------------------------------------------------------- the class

  /** Replay up to position `p` has given `entries`. */
  ghost predicate ReplayedSo(file: Bytes, entries: seq<Entry>, p: nat)
    requires p <= |file|
  {
    Replay(file) == Replayed(entries + Replay(file[p..]).entries, Replay(file[p..]).tainted)
  }

  lemma ReplayStarts(file: Bytes)
    ensures ReplayedSo(file, [], 0)
  {
    hide Replay;
    assert file[0..] == file;
    assert [] + Replay(file).entries == Replay(file).entries;
  }

  lemma ReplayTurn(file: Bytes, entries: seq<Entry>, p: nat)
    requires p <= |file| && ReplayedSo(file, entries, p)
    ensures var t := ReadRecord(file[p..]);
            if t.Next? then ReplayedSo(file, entries + [t.entry], p + t.size)
            else Replay(file) == Replayed(entries, t.Broken?)
  {
    hide ReadRecord;
    var t := ReadRecord(file[p..]);
    if t.Next? {
      assert file[p..][t.size..] == file[p + t.size..];
      var rest := Replay(file[p + t.size..]).entries;
      assert entries + ([t.entry] + rest) == entries + [t.entry] + rest;
    } else {
      assert entries + [] == entries;
    }
  }

  class WAL {
    var file: Bytes
    var buffer: Bytes
    var tainted: bool
    const table: seq<bv32>

    ghost predicate Valid() {
      Crc.IsTable(table)
    }

    constructor (contents: Bytes)
      ensures Valid() && file == contents && buffer == [] && !tainted
    {
      var t := new bv32[256];
      Crc.InitTable(t);
      file, buffer, tainted, table := contents, [], false, t[..];
    }

    /** Buffers a record for a put. */
    method Append(key: Key, ptr: Pointer)
      requires Valid()
      modifies this`buffer
      ensures buffer == old(buffer) + RecordBytes(Record(key, ptr))
    {
      hide U32, U64, Crc.IsTable, Crc.Checksum;
      var checksum := Crc.RecordChecksum(table, |key|, ptr.fileId, ptr.offset, ptr.length, key);
      var header := U32(|key|) + U32(ptr.fileId) + U64(ptr.offset) + U32(ptr.length) + U32(checksum as int);
      buffer := buffer + (header + key);
    }

    /** Buffers a record for a delete. */
    method AppendDelete(key: Key)
      requires Valid()
      modifies this`buffer
      ensures buffer == old(buffer) + RecordBytes(DeleteRecord(key))
    {
      hide U32, U64, Crc.IsTable, Crc.Checksum;
      var checksum := Crc.RecordChecksum(table, |key|, 0, 0, TOMBSTONE_MARK, key);
      buffer := buffer + (U32(|key|) + U32(0) + U64(0) + U32(TOMBSTONE_MARK) + U32(checksum as int) + key);
    }

    /** Moves the buffer to stable storage. */
    method Sync()
      modifies this`file, this`buffer
      ensures file == old(file) + old(buffer) && buffer == []
    {
      if buffer != [] {
        file := file + buffer;
        buffer := [];
      }
    }

    /** Reads records from the start of the file until one is missing or wrong. */
    method ReplayLog() returns (r: Replayed)
      modifies this`tainted
      ensures r == Replay(file) && tainted == r.tainted
    {
      hide ReadRecord, Replay, ReplayedSo;
      var entries, p, clean := [], 0, false;
      ReplayStarts(file);
      while true
        invariant 0 <= p <= |file|
        invariant ReplayedSo(file, entries, p)
        decreases |file| - p
      {
        var t := ReadRecord(file[p..]);
        ReplayTurn(file, entries, p);
        if t.AtEnd? {
          clean := true;
          break;
        }
        if t.Broken? { break; }
        entries, p := entries + [t.entry], p + t.size;
      }
      tainted := !clean;
      r := Replayed(entries, tainted);
    }
  }
}
