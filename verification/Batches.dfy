/** The store as the value logs see it, and the commit of a batch of writes. */
module Batches {
  import opened Keys
  import opened Codec
  import opened Vlog

  /** The active memtable, what frozen memtables and the tree give for other keys, the value logs as the
      records appended to each, and the size at which a log is full. */
  datatype State =
    State(active: map<Key, Pointer>, base: Key -> Option<Pointer>, logs: map<nat, Items>, current: nat, limit: nat)

  /** What `get_pointer` returns. */
  function Visible(s: State, k: Key): Option<Pointer> {
    Live(OrElse(if k in s.active then Some(s.active[k]) else None, s.base(k)))
  }

  /** What `get` returns. */
  ghost function ValueOf(s: State, k: Key): Option<Bytes> {
    var p := Visible(s, k);
    if p.Some? && p.value.fileId in s.logs then ReadAt(ItemsBytes(s.logs[p.value.fileId]), p.value) else None
  }

  /** All that reads return. */
  ghost function Values(s: State): Key -> Option<Bytes> {
    k => ValueOf(s, k)
  }

  /** `p` is the pointer that appending record `i`, for key `k`, returned. */
  ghost predicate IsRecordAt(items: Items, id: nat, k: Key, p: Pointer, i: nat) {
    i < |items| && items[i].0 == k && p == ItemPointer(items, id, i)
  }

  ghost predicate IsRecord(items: Items, id: nat, k: Key, p: Pointer) {
    exists i: nat :: IsRecordAt(items, id, k, p, i)
  }

  ghost predicate AllFit(items: Items) {
    forall x :: x in items ==> ItemFits(x)
  }

  /** Every visible pointer was returned by an append for its key. */
  ghost predicate PointersReal(s: State) {
    forall k :: PointerReal(s, k)
  }

  ghost predicate PointerReal(s: State, k: Key) {
    var p := Visible(s, k);
    p.Some? ==> p.value.fileId in s.logs && IsRecord(s.logs[p.value.fileId], p.value.fileId, k, p.value)
  }

  ghost predicate Sound(s: State) {
    && LimitOk(s.limit) && s.current in s.logs
    && (forall id :: id in s.logs ==> id <= s.current && AllFit(s.logs[id]))
    && PointersReal(s)
  }

  // ------------------------------------------------------------ reading records

  /** The bytes at a record's pointer are its value. */
  lemma RecordReads(items: Items, id: nat, i: nat)
    requires i < |items| && AllFit(items)
    ensures ReadAt(ItemsBytes(items), ItemPointer(items, id, i)) == Some(items[i].1)
  {
    hide RecordBytes, ItemsBytes, Names, ReadAt;
    ItemThere(items, i);
    assert items[i] in items;
    var (k, v) := items[i];
    var p := ItemPointer(items, id, i);
    PointerNames(ItemsBytes(items[..i]), id, k, v);
    NamesGrow(ItemsBytes(items[..i + 1]), ItemsBytes(items), p, v);
    NamedReads(ItemsBytes(items), p, v);
  }

  lemma PointerNames(b: Bytes, id: nat, k: Key, v: Bytes)
    requires |v| < TWO32
    ensures Names(b + RecordBytes(k, v), PointerTo(Log(b, []), id, k, v), v)
  {
    hide RecordBytes, Names;
    AppendNames(Log(b, []), id, k, v);
    assert b + [] == b;
  }

  /** Appending does not disturb the records already there. */
  lemma RecordStays(items: Items, x: (Key, Bytes), id: nat, k: Key, p: Pointer)
    requires IsRecord(items, id, k, p)
    ensures IsRecord(items + [x], id, k, p)
  {
    var i: nat :| IsRecordAt(items, id, k, p, i);
    assert (items + [x])[..i] == items[..i];
    assert IsRecordAt(items + [x], id, k, p, i);
  }

  /** A record reads the same in a longer file. */
  lemma ReadsSame(items: Items, x: (Key, Bytes), id: nat, k: Key, p: Pointer)
    requires IsRecord(items, id, k, p) && AllFit(items) && ItemFits(x)
    ensures ReadAt(ItemsBytes(items + [x]), p) == ReadAt(ItemsBytes(items), p)
  {
    hide ItemsBytes, ReadAt, ItemFits;
    var i: nat :| IsRecordAt(items, id, k, p, i);
    RecordReads(items, id, i);
    var more := items + [x];
    assert more[..i] == items[..i];
    RecordReads(more, id, i);
  }

  // ---------------------------------------------------------------- commits

  /** The file the next value goes to: a new one once the current is full. */
  function Target(s: State): (nat, Items) {
    if s.current in s.logs && |ItemsBytes(s.logs[s.current])| < s.limit then (s.current, s.logs[s.current])
    else (s.current + 1, [])
  }

  /** A put: the value appended, its pointer in the active memtable. */
  function Committed(s: State, k: Key, v: Bytes): State {
    var (id, items) := Target(s);
    var p := PointerTo(Log(ItemsBytes(items), []), id, k, v);
    s.(active := s.active[k := p], logs := s.logs[id := items + [(k, v)]], current := id)
  }

  /** A value goes to the current file while that is shorter than its limit, and to a new one after. */
  lemma FileRule(s: State, k: Key, v: Bytes)
    requires s.current in s.logs
    ensures var s', full := Committed(s, k, v), |ItemsBytes(s.logs[s.current])| >= s.limit;
            && s'.current == (if full then s.current + 1 else s.current)
            && s'.logs == s.logs[s'.current := (if full then [] else s.logs[s.current]) + [(k, v)]]
  {
    hide ItemsBytes;
  }

  lemma CommitPointer(s: State, k: Key, v: Bytes)
    requires Sound(s) && ItemFits((k, v))
    ensures var s' := Committed(s, k, v);
            && Visible(s', k) == Some(s'.active[k]) && s'.active[k].fileId == s'.current >= s.current
            && s'.current in s'.logs && s'.logs[s'.current] != []
            && IsRecordAt(s'.logs[s'.current], s'.current, k, s'.active[k], |s'.logs[s'.current]| - 1)
            && AllFit(s'.logs[s'.current])
  {
    hide ItemsBytes, PointersReal;
    var (id, items) := Target(s);
    var s' := Committed(s, k, v);
    assert s'.logs[id][..|items|] == items;
    assert |ItemsBytes([])| == 0 by { EmptyFile(); }
  }

  lemma EmptyFile()
    ensures ItemsBytes([]) == []
  {
  }

  /** A put sets its key's value and no other. */
  lemma CommitValue(s: State, k: Key, v: Bytes, k': Key)
    requires Sound(s) && ItemFits((k, v))
    ensures ValueOf(Committed(s, k, v), k') == if k' == k then Some(v) else ValueOf(s, k')
    ensures PointerReal(Committed(s, k, v), k')
  {
    hide ItemsBytes, PointersReal, ReadAt, ItemFits, IsRecordAt;
    var s' := Committed(s, k, v);
    CommitPointer(s, k, v);
    if k' == k {
      NewRecord(s'.logs[s'.current], s'.current, k, s'.active[k], v);
    } else {
      RealPointer(s, k');
      var p := Visible(s, k');
      assert Visible(s', k') == p;
      if p.Some? { OldRecord(s, k, v, k', p.value); }
    }
  }

  lemma RealPointer(s: State, k: Key)
    requires PointersReal(s)
    ensures PointerReal(s, k)
  {
  }

  lemma NewRecord(items: Items, id: nat, k: Key, p: Pointer, v: Bytes)
    requires items != [] && IsRecordAt(items, id, k, p, |items| - 1) && AllFit(items) && items[|items| - 1].1 == v
    ensures ReadAt(ItemsBytes(items), p) == Some(v) && IsRecord(items, id, k, p)
  {
    hide ItemsBytes, ReadAt;
    RecordReads(items, id, |items| - 1);
  }

  lemma OldRecord(s: State, k: Key, v: Bytes, k': Key, p: Pointer)
    requires Sound(s) && ItemFits((k, v)) && p.fileId in s.logs && IsRecord(s.logs[p.fileId], p.fileId, k', p)
    ensures var s' := Committed(s, k, v);
            && p.fileId in s'.logs && IsRecord(s'.logs[p.fileId], p.fileId, k', p)
            && ReadAt(ItemsBytes(s'.logs[p.fileId]), p) == ReadAt(ItemsBytes(s.logs[p.fileId]), p)
  {
    hide ItemsBytes, PointersReal, ReadAt, ItemFits, IsRecord;
    var (id, items) := Target(s);
    if p.fileId == id {
      RecordStays(items, (k, v), id, k', p);
      ReadsSame(items, (k, v), id, k', p);
    }
  }

  lemma CommitSound(s: State, k: Key, v: Bytes)
    requires Sound(s) && ItemFits((k, v))
    ensures Sound(Committed(s, k, v))
  {
    hide ItemsBytes, PointerReal, AllFit, ItemFits;
    var s' := Committed(s, k, v);
    CommitPointer(s, k, v);
    forall k' ensures PointerReal(s', k') {
      CommitValue(s, k, v, k');
    }
  }

  /** The value appended and nothing pointed at it. */
  function Stored(s: State, k: Key, v: Bytes): State {
    Committed(s, k, v).(active := s.active)
  }

  lemma StoredSame(s: State, k: Key, v: Bytes, k': Key)
    requires Sound(s) && ItemFits((k, v))
    ensures var s' := Stored(s, k, v);
            Visible(s', k') == Visible(s, k') && ValueOf(s', k') == ValueOf(s, k') && PointerReal(s', k')
  {
    hide ItemsBytes, PointersReal, ReadAt, ItemFits, IsRecord, Target;
    RealPointer(s, k');
    if Visible(s, k').Some? { OldRecord(s, k, v, k', Visible(s, k').value); }
  }

  lemma StoredSound(s: State, k: Key, v: Bytes)
    requires Sound(s) && ItemFits((k, v))
    ensures Sound(Stored(s, k, v))
  {
    hide ItemsBytes, PointerReal, AllFit, ItemFits;
    CommitPointer(s, k, v);
    forall k' ensures PointerReal(Stored(s, k, v), k') {
      StoredSame(s, k, v, k');
    }
  }

  // ------------------------------------------------------ deletes and freezes

  /** A delete: a tombstone, stamped with a log number, in the active memtable. */
  function Deleted(s: State, k: Key, walId: nat): State {
    s.(active := s.active[k := Pointer(walId, MAX_UINT64, 0)])
  }

  /** The active memtable frozen: a new one over it. */
  function Frozen(s: State): State {
    s.(active := map[], base := k => OrElse(if k in s.active then Some(s.active[k]) else None, s.base(k)))
  }

  lemma FrozenSame(s: State, k: Key)
    ensures Visible(Frozen(s), k) == Visible(s, k) && ValueOf(Frozen(s), k) == ValueOf(s, k)
    ensures PointerReal(s, k) ==> PointerReal(Frozen(s), k)
  {
    hide IsRecord, ReadAt, ItemsBytes;
  }

  lemma FrozenSound(s: State, target: nat)
    requires Sound(s)
    ensures Sound(Frozen(s)) && SameFile(s, Frozen(s), target)
  {
    hide ItemsBytes, PointerReal, AllFit;
    forall k ensures PointerReal(Frozen(s), k) {
      RealPointer(s, k);
      FrozenSame(s, k);
    }
  }

  lemma DeletedShows(s: State, k: Key, walId: nat, k': Key)
    ensures Visible(Deleted(s, k, walId), k') == if k' == k then None else Visible(s, k')
    ensures ValueOf(Deleted(s, k, walId), k') == if k' == k then None else ValueOf(s, k')
    ensures PointerReal(s, k') ==> PointerReal(Deleted(s, k, walId), k')
  {
    hide IsRecord, ReadAt, ItemsBytes;
  }

  lemma DeleteSound(s: State, k: Key, walId: nat)
    requires Sound(s)
    ensures Sound(Deleted(s, k, walId))
  {
    hide ItemsBytes, PointerReal, AllFit;
    forall k' ensures PointerReal(Deleted(s, k, walId), k') {
      RealPointer(s, k');
      DeletedShows(s, k, walId, k');
    }
  }

  // ------------------------------------------------------------------ batches

  /** What a writer may ask for; a rewrite is the collector's, of a record of the target file. */
  datatype Request = Put(k: Key, v: Bytes) | Delete(k: Key, walId: nat) | Rewrite(r: Record)

  ghost predicate RequestOk(q: Request) {
    (q.Put? ==> ItemFits((q.k, q.v))) && (q.Rewrite? ==> ItemFits((q.r.key, q.r.value)))
  }

  ghost predicate RequestsOk(qs: seq<Request>) {
    forall q :: q in qs ==> RequestOk(q)
  }

  /** The overwrite check: `seen`, the active memtable as the batch found it, has the key in a newer file. */
  predicate Caught(seen: map<Key, Pointer>, target: nat, r: Record) {
    r.key in seen && seen[r.key].fileId > target
  }

  /** One request of a batch. */
  function One(s: State, seen: map<Key, Pointer>, target: nat, q: Request): State {
    match q
    case Put(k, v) => Committed(s, k, v)
    case Delete(k, walId) => Deleted(s, k, walId)
    case Rewrite(r) => if Caught(seen, target, r) then s else Committed(s, r.key, r.value)
  }

  function Drained(s: State, seen: map<Key, Pointer>, target: nat, qs: seq<Request>): State {
    if qs == [] then s else One(Drained(s, seen, target, qs[..|qs| - 1]), seen, target, qs[|qs| - 1])
  }

  /** A batch starts a new value log if the current one is over its limit. */
  function Rolled(s: State): State {
    if s.current in s.logs && |ItemsBytes(s.logs[s.current])| > s.limit
    then s.(logs := s.logs[s.current + 1 := []], current := s.current + 1) else s
  }

  /** A batch of requests: all checks see the memtable as it was, and the pointers go in together. */
  function Batched(s: State, target: nat, qs: seq<Request>): State {
    Drained(Rolled(s), s.active, target, qs)
  }

  /** What a request sets `k` to, if it does. */
  function Sets(seen: map<Key, Pointer>, target: nat, q: Request, k: Key): Option<Option<Bytes>> {
    match q
    case Put(k', v) => if k' == k then Some(Some(v)) else None
    case Delete(k', _) => if k' == k then Some(None) else None
    case Rewrite(r) => if r.key == k && !Caught(seen, target, r) then Some(Some(r.value)) else None
  }

  ghost function LastSet(seen: map<Key, Pointer>, target: nat, qs: seq<Request>, k: Key): Option<Option<Bytes>> {
    if qs == [] then None
    else OrElse(Sets(seen, target, qs[|qs| - 1], k), LastSet(seen, target, qs[..|qs| - 1], k))
  }

  /** The last write to a key that a client asked for: a value, or a delete. */
  ghost function LastWrite(qs: seq<Request>, k: Key): Option<Option<Bytes>> {
    if qs == [] then None
    else OrElse(if qs[|qs| - 1].Rewrite? then None else Sets(map[], 0, qs[|qs| - 1], k), LastWrite(qs[..|qs| - 1], k))
  }

  /** What a read should return: the last write since the start, or what was there. */
  ghost function Expected(values: Key -> Option<Bytes>, ws: seq<Request>, k: Key): Option<Bytes> {
    if LastWrite(ws, k).Some? then LastWrite(ws, k).value else values(k)
  }

  ghost predicate Into(s: State, k: Key, target: nat) {
    Visible(s, k).Some? && Visible(s, k).value.fileId == target
  }

  /** The target file as it is while it is not the current one. */
  ghost predicate SameFile(s: State, s': State, target: nat) {
    && s'.current >= s.current && s'.limit == s.limit
    && (target < s.current && target in s.logs ==> target in s'.logs && s'.logs[target] == s.logs[target])
  }

  lemma OneShows(s: State, seen: map<Key, Pointer>, target: nat, q: Request, k: Key)
    requires Sound(s) && RequestOk(q)
    ensures var s', given := One(s, seen, target, q), Sets(seen, target, q, k);
            && ValueOf(s', k) == (if given.Some? then given.value else ValueOf(s, k))
            && (given.None? ==> Visible(s', k) == Visible(s, k))
            && (given.Some? && target < s.current ==> !Into(s', k, target))
  {
    hide Committed, Deleted, ValueOf, Visible, Sound, ItemFits, Caught, Into;
    match q
    case Put(k', v) => CommitShows(s, k', v, target, k);
    case Delete(k', walId) => DeleteShows(s, k', walId, target, k);
    case Rewrite(r) => CommitShows(s, r.key, r.value, target, k);
  }

  lemma CommitShows(s: State, k': Key, v: Bytes, target: nat, k: Key)
    requires Sound(s) && ItemFits((k', v))
    ensures var s' := Committed(s, k', v);
            && ValueOf(s', k) == (if k == k' then Some(v) else ValueOf(s, k))
            && (if k == k' then target < s.current ==> !Into(s', k, target) else Visible(s', k) == Visible(s, k))
  {
    hide ItemsBytes, ValueOf, Sound, ItemFits;
    CommitValue(s, k', v, k);
    CommitPointer(s, k', v);
  }

  lemma DeleteShows(s: State, k': Key, walId: nat, target: nat, k: Key)
    ensures var s' := Deleted(s, k', walId);
            && ValueOf(s', k) == (if k == k' then None else ValueOf(s, k))
            && (if k == k' then !Into(s', k, target) else Visible(s', k) == Visible(s, k))
  {
    hide ValueOf, Visible, Deleted;
    DeletedShows(s, k', walId, k);
  }

  lemma OneSound(s: State, seen: map<Key, Pointer>, target: nat, q: Request)
    requires Sound(s) && RequestOk(q)
    ensures Sound(One(s, seen, target, q)) && SameFile(s, One(s, seen, target, q), target)
  {
    hide ItemsBytes, ItemFits, PointersReal, AllFit;
    match q
    case Put(k, v) => CommitSound(s, k, v);
    case Delete(k, walId) => DeleteSound(s, k, walId);
    case Rewrite(r) => CommitSound(s, r.key, r.value);
  }

  lemma {:induction false} DrainedSound(s: State, seen: map<Key, Pointer>, target: nat, qs: seq<Request>)
    requires Sound(s) && RequestsOk(qs)
    ensures Sound(Drained(s, seen, target, qs)) && SameFile(s, Drained(s, seen, target, qs), target)
  {
    hide Sound, One, RequestOk;
    if qs != [] {
      var n := |qs| - 1;
      assert qs[n] in qs;
      DrainedSound(s, seen, target, qs[..n]);
      OneSound(Drained(s, seen, target, qs[..n]), seen, target, qs[n]);
    }
  }

  /** After a batch a key has what the last request to set it gave, and otherwise what it had. */
  lemma {:induction false} DrainedShows(s: State, seen: map<Key, Pointer>, target: nat, qs: seq<Request>, k: Key)
    requires Sound(s) && RequestsOk(qs)
    ensures var s', given := Drained(s, seen, target, qs), LastSet(seen, target, qs, k);
            && ValueOf(s', k) == (if given.Some? then given.value else ValueOf(s, k))
            && (given.None? ==> Visible(s', k) == Visible(s, k))
            && (given.Some? && target < s.current ==> !Into(s', k, target))
  {
    hide Sound, One, RequestOk, ValueOf, Visible, Sets;
    if qs != [] {
      var n := |qs| - 1;
      assert qs[n] in qs;
      DrainedShows(s, seen, target, qs[..n], k);
      DrainedSound(s, seen, target, qs[..n]);
      OneShows(Drained(s, seen, target, qs[..n]), seen, target, qs[n], k);
    }
  }

  lemma RolledSame(s: State, target: nat, k: Key)
    requires Sound(s)
    ensures Visible(Rolled(s), k) == Visible(s, k) && ValueOf(Rolled(s), k) == ValueOf(s, k)
    ensures PointerReal(Rolled(s), k) && SameFile(s, Rolled(s), target)
  {
    hide ItemsBytes, ReadAt, IsRecord, PointersReal;
    RealPointer(s, k);
  }

  lemma RolledSound(s: State)
    requires Sound(s)
    ensures Sound(Rolled(s))
  {
    hide ItemsBytes, PointerReal;
    forall k ensures PointerReal(Rolled(s), k) {
      RolledSame(s, 0, k);
    }
  }

  /** The values of a batch are all appended before the first pointer goes in: a read between two insertions
      returns what it would after a batch of the requests inserted so far. */
  lemma {:induction false} MidBatch(s: State, seen: map<Key, Pointer>, target: nat, qs: seq<Request>, j: nat, k: Key)
    requires Sound(s) && RequestsOk(qs) && j <= |qs|
    ensures var part, all := Drained(s, seen, target, qs[..j]), Drained(s, seen, target, qs);
            var mid := part.(logs := all.logs, current := all.current);
            Sound(mid) && Visible(mid, k) == Visible(part, k) && ValueOf(mid, k) == ValueOf(part, k)
    decreases |qs|
  {
    hide Sound, RequestOk, ValueOf, Visible, Committed, Deleted, Caught;
    if j == |qs| {
      assert qs[..j] == qs;
      DrainedSound(s, seen, target, qs);
    } else {
      var n := |qs| - 1;
      assert qs[..n][..j] == qs[..j] && qs[n] in qs;
      MidBatch(s, seen, target, qs[..n], j, k);
      var part, most := Drained(s, seen, target, qs[..j]), Drained(s, seen, target, qs[..n]);
      DrainedSound(s, seen, target, qs[..j]);
      DrainedSound(s, seen, target, qs[..n]);
      MidOne(part.(logs := most.logs, current := most.current), most, seen, target, qs[n], k);
    }
  }

  lemma MidOne(mid: State, most: State, seen: map<Key, Pointer>, target: nat, q: Request, k: Key)
    requires Sound(mid) && RequestOk(q) && mid.logs == most.logs && mid.current == most.current
             && mid.limit == most.limit
    ensures var all := One(most, seen, target, q);
            var mid' := mid.(logs := all.logs, current := all.current);
            Sound(mid') && Visible(mid', k) == Visible(mid, k) && ValueOf(mid', k) == ValueOf(mid, k)
  {
    hide Sound, ItemFits, ValueOf, Visible, ItemsBytes;
    match q
    case Put(k', v) => StoredSame(mid, k', v, k); StoredSound(mid, k', v);
    case Delete(_, _) =>
    case Rewrite(r) => StoredSame(mid, r.key, r.value, k); StoredSound(mid, r.key, r.value);
  }
}
