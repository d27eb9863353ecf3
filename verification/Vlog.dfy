/** The value log: an append-only file of key and value, read back by pointer or from end to end. */
module Vlog {
  import opened Keys
  import opened Codec

  const FLUSH_SIZE: nat := 4 * 1024 * 1024
  const HEADER: nat := 8

  /** A file that stays this size gives no value an offset that could be mistaken for a tombstone's. */
  predicate LimitOk(limit: nat) {
    limit + TWO32 + HEADER <= MAX_UINT64
  }

  /** A log file: the bytes on disk and the bytes still buffered. */
  datatype Log = Log(file: Bytes, buffer: Bytes)

  datatype Record = Record(key: Key, value: Bytes, ptr: Pointer)

  /** Sizes are kept in 32 bits, and only that many bytes are copied. */
  function Clipped(b: Bytes): (r: Bytes)
    ensures |r| < TWO32 && (|b| < TWO32 ==> r == b)
  {
    b[..|b| % TWO32]
  }

  function RecordBytes(key: Key, value: Bytes): (b: Bytes)
    ensures |b| == HEADER + |Clipped(key)| + |Clipped(value)|
  {
    U32(|key|) + U32(|value|) + Clipped(key) + Clipped(value)
  }

  ghost function Whole(l: Log): Bytes {
    l.file + l.buffer
  }

  function Synced(l: Log): Log {
    Log(l.file + l.buffer, [])
  }

  function Buffered(l: Log, key: Key, value: Bytes): Log {
    Log(l.file, l.buffer + RecordBytes(key, value))
  }

  /** Appending buffers the record, and writes the buffer out once it is 4 MiB. */
  function Appended(l: Log, key: Key, value: Bytes): Log {
    var l' := Buffered(l, key, value);
    if |l'.buffer| >= FLUSH_SIZE then Synced(l') else l'
  }

  function PointerTo(l: Log, id: nat, key: Key, value: Bytes): Pointer {
    Pointer(id, |l.file| + |l.buffer| + HEADER + |Clipped(key)|, |Clipped(value)|)
  }

  /** `p` names the bytes `v` of the file `b`. */
  ghost predicate Names(b: Bytes, p: Pointer, v: Bytes) {
    p.length == |v| && p.offset + p.length <= |b| && b[p.offset..p.offset + p.length] == v
  }

  /** Reading by pointer sees only what is on disk; a zero length reads as the empty value. */
  function ReadAt(b: Bytes, p: Pointer): Option<Bytes> {
    if p.length == 0 then Some([])
    else if p.offset + p.length > |b| then None
    else Some(b[p.offset..p.offset + p.length])
  }

  lemma NamedReads(b: Bytes, p: Pointer, v: Bytes)
    requires Names(b, p, v)
    ensures ReadAt(b, p) == Some(v)
  {
  }

  /** A named value stays named as the file grows. */
  lemma NamesGrow(b: Bytes, b': Bytes, p: Pointer, v: Bytes)
    requires Names(b, p, v) && b <= b'
    ensures Names(b', p, v)
  {
    assert b'[p.offset..p.offset + p.length] == b[p.offset..p.offset + p.length];
  }

  /** What buffering a record does: file and buffer together grow by it, and what is returned names the value. */
  lemma BufferedNames(l: Log, id: nat, key: Key, value: Bytes)
    ensures var l' := Buffered(l, key, value);
            && Whole(l') == Whole(l) + RecordBytes(key, value) && l.file == l'.file
            && Names(Whole(l'), PointerTo(l, id, key, value), Clipped(value))
  {
    hide U32, Clipped;
    var l' := Buffered(l, key, value);
    assert Whole(l') == Whole(l) + RecordBytes(key, value);
    var p, r := PointerTo(l, id, key, value), RecordBytes(key, value);
    assert r[HEADER + |Clipped(key)|..] == Clipped(value);
    assert Whole(l')[p.offset..p.offset + p.length] == r[HEADER + |Clipped(key)|..];
  }

  /** The same for an append that may write the buffer out: the file only grows. */
  lemma AppendNames(l: Log, id: nat, key: Key, value: Bytes)
    ensures var l' := Appended(l, key, value);
            && Whole(l') == Whole(l) + RecordBytes(key, value) && l.file <= l'.file
            && Names(Whole(l'), PointerTo(l, id, key, value), Clipped(value))
  {
    hide RecordBytes, Names, PointerTo;
    BufferedNames(l, id, key, value);
    var l' := Buffered(l, key, value);
    assert Whole(Synced(l')) == Whole(l');
  }

  /** Once synced, the value reads back: whole exactly when its size fits 32 bits. */
  lemma SyncedReadsBack(l: Log, id: nat, key: Key, value: Bytes)
    ensures var p := PointerTo(l, id, key, value);
            ReadAt(Synced(Appended(l, key, value)).file, p) == Some(value) <==> |value| < TWO32
  {
    hide RecordBytes, Appended, U32;
    AppendNames(l, id, key, value);
    NamedReads(Whole(Appended(l, key, value)), PointerTo(l, id, key, value), Clipped(value));
  }

  /** A value of exactly 2^32 bytes reads back as the empty value. */
  lemma HugeValueLost(l: Log, id: nat, key: Key)
    ensures var value: Bytes := seq(TWO32, _ => 0);
            ReadAt(Synced(Appended(l, key, value)).file, PointerTo(l, id, key, value)) == Some([])
  {
    hide RecordBytes, Appended, U32;
    var value: Bytes := seq(TWO32, _ => 0);
    assert |Clipped(value)| == 0;
  }

  // ------------------------------------------------------ reading end to end

  /** The record at an offset and the offset after it, as far as the file goes. */
  function ReadNext(b: Bytes, id: nat, off: nat): (r: Option<(Record, nat)>)
    ensures r.Some? ==> off + HEADER <= r.value.1 <= |b|
  {
    if off + HEADER > |b| then None
    else
      var k, v := Value32(b[off..off + 4]), Value32(b[off + 4..off + 8]);
      var p := off + HEADER;
      if p + k + v > |b| then None
      else Some((Record(b[p..p + k], b[p + k..p + k + v], Pointer(id, p + k, v)), p + k + v))
  }

  /** What was appended: keys and values in order. */
  type Items = seq<(Key, Bytes)>

  ghost predicate ItemFits(i: (Key, Bytes)) {
    |i.0| < TWO32 && |i.1| < TWO32
  }

  function ItemsBytes(items: Items): Bytes {
    if items == [] then []
    else ItemsBytes(items[..|items| - 1]) + RecordBytes(items[|items| - 1].0, items[|items| - 1].1)
  }

  /** The pointer that appending item `i` to the file gave. */
  ghost function ItemPointer(items: Items, id: nat, i: nat): Pointer
    requires i < |items|
  {
    PointerTo(Log(ItemsBytes(items[..i]), []), id, items[i].0, items[i].1)
  }

  lemma {:induction false} ItemThere(items: Items, i: nat)
    requires i < |items|
    ensures ItemsBytes(items[..i + 1]) == ItemsBytes(items[..i]) + RecordBytes(items[i].0, items[i].1)
    ensures ItemsBytes(items[..i + 1]) <= ItemsBytes(items)
  {
    hide RecordBytes;
    assert items[..i + 1][..i] == items[..i];
    if i + 1 == |items| {
      assert items[..i + 1] == items;
    } else {
      var n := |items| - 1;
      ItemThere(items[..n], i);
      assert items[..n][..i + 1] == items[..i + 1];
    }
  }

  lemma RecordSlices(b: Bytes, id: nat, off: nat, key: Key, value: Bytes)
    requires |key| < TWO32 && |value| < TWO32 && off + HEADER + |key| + |value| <= |b|
    requires b[off..off + HEADER + |key| + |value|] == RecordBytes(key, value)
    ensures ReadNext(b, id, off)
         == Some((Record(key, value, Pointer(id, off + HEADER + |key|, |value|)), off + HEADER + |key| + |value|))
  {
    hide U32, Value32, RecordBytes;
    var r, k, v := RecordBytes(key, value), |key|, |value|;
    RecordParts(key, value);
    SliceWithin(b, off, off + |r|, r, 0, 4);
    SliceWithin(b, off, off + |r|, r, 4, 8);
    SliceWithin(b, off, off + |r|, r, 8, 8 + k);
    SliceWithin(b, off, off + |r|, r, 8 + k, 8 + k + v);
    RoundTrip32(k);
    RoundTrip32(v);
  }

  lemma RecordParts(key: Key, value: Bytes)
    requires |key| < TWO32 && |value| < TWO32
    ensures var r, k, v := RecordBytes(key, value), |key|, |value|;
            && |r| == 8 + k + v && r[0..4] == U32(k) && r[4..8] == U32(v) && r[8..8 + k] == key
            && r[8 + k..8 + k + v] == value
  {
    hide U32, Clipped;
  }

  /** Reading on from the end of item `i - 1` gives item `i` with the pointer its append returned. */
  lemma ReadItem(items: Items, id: nat, i: nat)
    requires (forall x :: x in items ==> ItemFits(x)) && i < |items|
    ensures ReadNext(ItemsBytes(items), id, |ItemsBytes(items[..i])|)
         == Some((Record(items[i].0, items[i].1, ItemPointer(items, id, i)), |ItemsBytes(items[..i + 1])|))
  {
    hide RecordBytes, ReadNext, ItemsBytes;
    assert items[i] in items;
    ItemThere(items, i);
    var b, off, r := ItemsBytes(items), |ItemsBytes(items[..i])|, RecordBytes(items[i].0, items[i].1);
    PrefixSlice(b, ItemsBytes(items[..i]), r);
    RecordSlices(b, id, off, items[i].0, items[i].1);
  }

  lemma PrefixSlice(b: Bytes, a: Bytes, r: Bytes)
    requires a + r <= b
    ensures |a| + |r| <= |b| && b[|a|..|a| + |r|] == r
  {
    assert b[|a|..|a| + |r|] == (a + r)[|a|..];
  }

  lemma ReadEnd(b: Bytes, id: nat)
    ensures ReadNext(b, id, |b|).None?
  {
  }

  ghost function RecordsOf(items: Items, id: nat): seq<Record> {
    seq(|items|, i requires 0 <= i < |items| => Record(items[i].0, items[i].1, ItemPointer(items, id, i)))
  }

  class VLog {
    var file: Bytes
    var buffer: Bytes
    var offset: nat
    const id: nat

    ghost predicate Valid()
      reads this
    {
      offset == |file|
    }

    ghost function Contents(): Log
      reads this
    {
      Log(file, buffer)
    }

    constructor (contents: Bytes, number: nat)
      ensures Valid() && Contents() == Log(contents, []) && id == number
    {
      file, buffer, offset, id := contents, [], |contents|, number;
    }

    method Sync()
      requires Valid()
      modifies this
      ensures Valid() && Contents() == Synced(old(Contents()))
    {
      if buffer != [] {
        file := file + buffer;
        offset := offset + |buffer|;
        buffer := [];
      }
    }

    /** Buffers a record and returns where its value will be. */
    method Append(key: Key, value: Bytes) returns (ptr: Pointer)
      requires Valid()
      modifies this
      ensures Valid() && Contents() == Appended(old(Contents()), key, value)
      ensures ptr == PointerTo(old(Contents()), id, key, value)
      ensures Names(Whole(Contents()), ptr, Clipped(value))
      ensures |buffer| < 0x40_0000
      ensures old(|buffer|) + |RecordBytes(key, value)| < 0x40_0000 ==> file == old(file)
    {
      hide U32;
      AppendNames(Contents(), id, key, value);
      var keySize, valueSize := |key| % TWO32, |value| % TWO32;
      var at := offset + |buffer|;
      buffer := buffer + (U32(|key|) + U32(|value|) + key[..keySize] + value[..valueSize]);
      ptr := Pointer(id, at + HEADER + keySize, valueSize);
      if |buffer| >= FLUSH_SIZE {
        Sync();
      }
    }

    /** Enumerates the file from its start. */
    method ReadAll(ghost items: Items) returns (rs: seq<Record>)
      ensures file == ItemsBytes(items) && (forall x :: x in items ==> ItemFits(x)) ==> rs == RecordsOf(items, id)
    {
      hide ReadNext, ItemsBytes, ItemFits;
      ghost var good := file == ItemsBytes(items) && forall x :: x in items ==> ItemFits(x);
      var at := 0;
      rs := [];
      NoItems(items);
      while true
        invariant 0 <= at <= |file|
        invariant good ==> |rs| <= |items| && at == |ItemsBytes(items[..|rs|])| && rs == RecordsOf(items, id)[..|rs|]
        decreases |file| - at
      {
        if good && |rs| < |items| { ReadItem(items, id, |rs|); }
        if good && |rs| == |items| {
          assert items[..|rs|] == items;
          ReadEnd(file, id);
        }
        var next := ReadNext(file, id, at);
        if next.None? { break; }
        rs, at := rs + [next.value.0], next.value.1;
      }
    }
  }

  lemma NoItems(items: Items)
    ensures ItemsBytes(items[..0]) == []
  {
  }
}
