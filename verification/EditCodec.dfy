/** The manifest encoding of a version edit. */
module EditCodec {
  import opened Keys
  import opened Codec
  import opened Lsm

  const TAG_NEXT_FILE: nat := 1
  const TAG_DELETED: nat := 2
  const TAG_NEW: nat := 3

  const EMPTY_EDIT: Edit := Edit(None, [], [])

  function EncodeString(s: Key): Bytes {
    U32(|s|) + s
  }

  function EncodeNext(next: Option<nat>): Bytes {
    if next.None? then [] else U32(TAG_NEXT_FILE) + U32(next.value)
  }

  function EncodeDeleted(ds: seq<(nat, nat)>): Bytes {
    if ds == [] then []
    else U32(TAG_DELETED) + U32(ds[0].0) + U32(ds[0].1) + EncodeDeleted(ds[1..])
  }

  function EncodeFile(level: nat, f: FileMeta): Bytes {
    U32(level) + U32(f.number) + U64(f.size) + EncodeString(f.minKey) + EncodeString(f.maxKey)
  }

  function EncodeAdded(fs: seq<(nat, FileMeta)>): Bytes {
    if fs == [] then []
    else U32(TAG_NEW) + EncodeFile(fs[0].0, fs[0].1) + EncodeAdded(fs[1..])
  }

  function EncodeEdit(e: Edit): Bytes {
    EncodeNext(e.nextFile) + EncodeDeleted(e.deleted) + EncodeAdded(e.added)
  }

  /** The fields on the wire: tag 1 and the counter, tag 2 with level and number, tag 3 with level, number, size and
      the two keys, each with its length. */
  lemma WireFormat(n: nat, level: nat, number: nat, f: FileMeta)
    ensures EncodeEdit(Edit(Some(n), [], [])) == U32(1) + U32(n)
    ensures EncodeEdit(Edit(None, [(level, number)], [])) == U32(2) + U32(level) + U32(number)
    ensures EncodeEdit(Edit(None, [], [(level, f)]))
         == U32(3) + U32(level) + U32(f.number) + U64(f.size) + U32(|f.minKey|) + f.minKey + U32(|f.maxKey|) + f.maxKey
  {
    hide U32, U64;
    assert [(level, number)][1..] == [] && [(level, f)][1..] == [];
    assert U32(3) + EncodeFile(level, f)
        == U32(3) + U32(level) + U32(f.number) + U64(f.size) + U32(|f.minKey|) + f.minKey + U32(|f.maxKey|) + f.maxKey;
  }

  method EncodeTo(e: Edit) returns (dst: Bytes)
    ensures dst == EncodeEdit(e)
  {
    hide U32;
    dst := [];
    if e.nextFile.Some? {
      dst := dst + U32(TAG_NEXT_FILE) + U32(e.nextFile.value);
    }
    ghost var head := dst;
    var i := 0;
    assert e.deleted[0..] == e.deleted;
    while i < |e.deleted|
      invariant i <= |e.deleted|
      invariant dst + EncodeDeleted(e.deleted[i..]) == head + EncodeDeleted(e.deleted)
    {
      assert e.deleted[i..][1..] == e.deleted[i + 1..];
      dst := dst + (U32(TAG_DELETED) + U32(e.deleted[i].0) + U32(e.deleted[i].1));
      i := i + 1;
    }
    assert dst == head + EncodeDeleted(e.deleted);
    head := dst;
    i := 0;
    assert e.added[0..] == e.added;
    while i < |e.added|
      invariant i <= |e.added|
      invariant dst + EncodeAdded(e.added[i..]) == head + EncodeAdded(e.added)
    {
      assert e.added[i..][1..] == e.added[i + 1..];
      dst := dst + (U32(TAG_NEW) + EncodeFile(e.added[i].0, e.added[i].1));
      i := i + 1;
    }
    assert dst == head + EncodeAdded(e.added);
  }

  // --------------------------------------------------------------- decoding

  datatype Parsed<+T> = Bad | Good(value: T, rest: Bytes)

  function Get32(b: Bytes): (r: Parsed<nat>)
    ensures r.Good? ==> |r.rest| < |b|
  {
    if |b| < 4 then Bad else Good(Value32(b[..4]), b[4..])
  }

  function Get64(b: Bytes): (r: Parsed<nat>)
    ensures r.Good? ==> |r.rest| < |b|
  {
    if |b| < 8 then Bad else Good(Value64(b[..8]), b[8..])
  }

  function GetString(b: Bytes): (r: Parsed<Key>)
    ensures r.Good? ==> |r.rest| < |b|
  {
    var n := Get32(b);
    if n.Bad? || |n.rest| < n.value then Bad else Good(n.rest[..n.value], n.rest[n.value..])
  }

  function GetPair(b: Bytes): (r: Parsed<(nat, nat)>)
    ensures r.Good? ==> |r.rest| < |b|
  {
    var x := Get32(b);
    if x.Bad? then Bad
    else
      var y := Get32(x.rest);
      if y.Bad? then Bad else Good((x.value, y.value), y.rest)
  }

  function GetFile(b: Bytes): (r: Parsed<(nat, FileMeta)>)
    ensures r.Good? ==> |r.rest| < |b|
  {
    var head := GetPair(b);
    if head.Bad? then Bad
    else
      var size := Get64(head.rest);
      if size.Bad? then Bad
      else
        var lo := GetString(size.rest);
        if lo.Bad? then Bad
        else
          var hi := GetString(lo.rest);
          if hi.Bad? then Bad
          else Good((head.value.0, FileMeta(head.value.1, size.value, lo.value, hi.value)), hi.rest)
  }

  /** Reads tagged fields to the end of `b`, adding them to `acc`. */
  function Parse(b: Bytes, acc: Edit): Option<Edit>
    decreases |b|
  {
    if b == [] then Some(acc)
    else
      var tag := Get32(b);
      if tag.Bad? then None
      else if tag.value == TAG_NEXT_FILE then
        var n := Get32(tag.rest);
        if n.Bad? then None else Parse(n.rest, acc.(nextFile := Some(n.value)))
      else if tag.value == TAG_DELETED then
        var d := GetPair(tag.rest);
        if d.Bad? then None else Parse(d.rest, acc.(deleted := acc.deleted + [d.value]))
      else if tag.value == TAG_NEW then
        var f := GetFile(tag.rest);
        if f.Bad? then None else Parse(f.rest, acc.(added := acc.added + [f.value]))
      else None
  }

  function DecodeEdit(b: Bytes): Option<Edit> {
    Parse(b, EMPTY_EDIT)
  }

  method DecodeFrom(src: Bytes) returns (r: Option<Edit>)
    ensures r == DecodeEdit(src)
  {
    var rest := src;
    var acc := EMPTY_EDIT;
    while rest != []
      invariant DecodeEdit(src) == Parse(rest, acc)
      decreases |rest|
    {
      var tag := Get32(rest);
      if tag.Bad? { return None; }
      if tag.value == TAG_NEXT_FILE {
        var n := Get32(tag.rest);
        if n.Bad? { return None; }
        acc, rest := acc.(nextFile := Some(n.value)), n.rest;
      } else if tag.value == TAG_DELETED {
        var d := GetPair(tag.rest);
        if d.Bad? { return None; }
        acc, rest := acc.(deleted := acc.deleted + [d.value]), d.rest;
      } else if tag.value == TAG_NEW {
        var f := GetFile(tag.rest);
        if f.Bad? { return None; }
        acc, rest := acc.(added := acc.added + [f.value]), f.rest;
      } else {
        return None;
      }
    }
    r := Some(acc);
  }

  // ------------------------------------------------------------- round trip

  ghost predicate FileFits(f: FileMeta) {
    f.number < TWO32 && f.size < TWO64 && |f.minKey| < TWO32 && |f.maxKey| < TWO32
  }

  /** Every field fits the integer width it is stored in. */
  ghost predicate Fits(e: Edit) {
    && (e.nextFile.Some? ==> e.nextFile.value < TWO32)
    && (forall i :: 0 <= i < |e.deleted| ==> e.deleted[i].0 < TWO32 && e.deleted[i].1 < TWO32)
    && (forall i :: 0 <= i < |e.added| ==> e.added[i].0 < TWO32 && FileFits(e.added[i].1))
  }

  lemma Get32Encoded(n: nat, rest: Bytes)
    requires n < TWO32
    ensures Get32(U32(n) + rest) == Good(n, rest)
  {
    RoundTrip32(n);
    assert (U32(n) + rest)[..4] == U32(n) && (U32(n) + rest)[4..] == rest;
  }

  lemma Get64Encoded(n: nat, rest: Bytes)
    requires n < TWO64
    ensures Get64(U64(n) + rest) == Good(n, rest)
  {
    RoundTrip64(n);
    assert (U64(n) + rest)[..8] == U64(n) && (U64(n) + rest)[8..] == rest;
  }

  lemma GetStringEncoded(s: Key, rest: Bytes)
    requires |s| < TWO32
    ensures GetString(EncodeString(s) + rest) == Good(s, rest)
  {
    assert EncodeString(s) + rest == U32(|s|) + (s + rest);
    Get32Encoded(|s|, s + rest);
    assert (s + rest)[..|s|] == s && (s + rest)[|s|..] == rest;
  }

  lemma GetPairEncoded(x: nat, y: nat, rest: Bytes)
    requires x < TWO32 && y < TWO32
    ensures GetPair(U32(x) + U32(y) + rest) == Good((x, y), rest)
  {
    assert U32(x) + U32(y) + rest == U32(x) + (U32(y) + rest);
    Get32Encoded(x, U32(y) + rest);
    Get32Encoded(y, rest);
  }

  lemma GetFileEncoded(level: nat, f: FileMeta, rest: Bytes)
    requires level < TWO32 && FileFits(f)
    ensures GetFile(EncodeFile(level, f) + rest) == Good((level, f), rest)
  {
    var r3 := EncodeString(f.maxKey) + rest;
    var r2 := EncodeString(f.minKey) + r3;
    var r1 := U64(f.size) + r2;
    assert EncodeFile(level, f) + rest == U32(level) + U32(f.number) + r1;
    GetPairEncoded(level, f.number, r1);
    Get64Encoded(f.size, r2);
    GetStringEncoded(f.minKey, r3);
    GetStringEncoded(f.maxKey, rest);
  }

  lemma ParseStep(b: Bytes, tagged: Bytes, tag: nat, acc: Edit)
    requires b != [] && Get32(b) == Good(tag, tagged)
    ensures tag == TAG_NEXT_FILE && Get32(tagged).Good? ==>
              Parse(b, acc) == Parse(Get32(tagged).rest, acc.(nextFile := Some(Get32(tagged).value)))
    ensures tag == TAG_DELETED && GetPair(tagged).Good? ==>
              Parse(b, acc) == Parse(GetPair(tagged).rest, acc.(deleted := acc.deleted + [GetPair(tagged).value]))
    ensures tag == TAG_NEW && GetFile(tagged).Good? ==>
              Parse(b, acc) == Parse(GetFile(tagged).rest, acc.(added := acc.added + [GetFile(tagged).value]))
  {
    hide Get32, GetPair, GetFile;
  }

  lemma {:induction false} ParseDeleted(ds: seq<(nat, nat)>, rest: Bytes, acc: Edit)
    requires forall i :: 0 <= i < |ds| ==> ds[i].0 < TWO32 && ds[i].1 < TWO32
    ensures Parse(EncodeDeleted(ds) + rest, acc) == Parse(rest, acc.(deleted := acc.deleted + ds))
  {
    hide U32, Get32, GetPair, GetFile, Parse;
    if ds == [] {
      assert [] + rest == rest && acc.deleted + ds == acc.deleted;
    } else {
      var tail := EncodeDeleted(ds[1..]) + rest;
      var pair := U32(ds[0].0) + U32(ds[0].1) + tail;
      assert EncodeDeleted(ds) + rest == U32(TAG_DELETED) + pair;
      Get32Encoded(TAG_DELETED, pair);
      GetPairEncoded(ds[0].0, ds[0].1, tail);
      ParseStep(U32(TAG_DELETED) + pair, pair, TAG_DELETED, acc);
      var acc' := acc.(deleted := acc.deleted + [ds[0]]);
      ParseDeleted(ds[1..], rest, acc');
      assert acc'.deleted + ds[1..] == acc.deleted + ds;
    }
  }

  lemma {:induction false} ParseAdded(fs: seq<(nat, FileMeta)>, acc: Edit)
    requires forall i :: 0 <= i < |fs| ==> fs[i].0 < TWO32 && FileFits(fs[i].1)
    ensures Parse(EncodeAdded(fs), acc) == Some(acc.(added := acc.added + fs))
  {
    hide U32, Get32, GetFile, EncodeFile;
    if fs == [] {
      assert acc.added + fs == acc.added;
    } else {
      hide Parse;
      var tail := EncodeAdded(fs[1..]);
      var file := EncodeFile(fs[0].0, fs[0].1) + tail;
      assert EncodeAdded(fs) == U32(TAG_NEW) + file;
      Get32Encoded(TAG_NEW, file);
      GetFileEncoded(fs[0].0, fs[0].1, tail);
      ParseStep(U32(TAG_NEW) + file, file, TAG_NEW, acc);
      var acc' := acc.(added := acc.added + [fs[0]]);
      ParseAdded(fs[1..], acc');
      assert acc'.added + fs[1..] == acc.added + fs;
    }
  }

  /** Decoding undoes encoding. */
  lemma EditRoundTrip(e: Edit)
    requires Fits(e)
    ensures DecodeEdit(EncodeEdit(e)) == Some(e)
  {
    hide U32, Get32, Parse, EncodeDeleted, EncodeAdded;
    var files := EncodeAdded(e.added);
    var body := EncodeDeleted(e.deleted) + files;
    var acc := EMPTY_EDIT.(nextFile := e.nextFile);
    assert EncodeEdit(e) == EncodeNext(e.nextFile) + body;
    if e.nextFile.Some? {
      assert EncodeEdit(e) == U32(TAG_NEXT_FILE) + (U32(e.nextFile.value) + body);
      Get32Encoded(TAG_NEXT_FILE, U32(e.nextFile.value) + body);
      Get32Encoded(e.nextFile.value, body);
      ParseStep(EncodeEdit(e), U32(e.nextFile.value) + body, TAG_NEXT_FILE, EMPTY_EDIT);
    } else {
      assert [] + body == body;
    }
    ParseDeleted(e.deleted, files, acc);
    assert [] + e.deleted == e.deleted;
    ParseAdded(e.added, acc.(deleted := e.deleted));
    assert [] + e.added == e.added;
  }
}
