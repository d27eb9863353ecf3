/** Value-log garbage collection: live records of the oldest file are written again and the file dropped. */
module Gc {
  import opened Keys
  import opened Codec
  import opened Vlog
  import opened Batches

  // ------------------------------------------------------- writes and batches

  lemma {:induction false} LastWriteConcat(a: seq<Request>, b: seq<Request>, k: Key)
    ensures LastWrite(a + b, k) == OrElse(LastWrite(b, k), LastWrite(a, k))
  {
    hide Sets;
    if b == [] {
      assert a + b == a;
    } else {
      var n := |b| - 1;
      assert (a + b)[..|a| + n] == a + b[..n];
      LastWriteConcat(a, b[..n], k);
    }
  }

  lemma {:induction false} LastSetConcat(seen: map<Key, Pointer>, target: nat, a: seq<Request>, b: seq<Request>, k: Key)
    ensures LastSet(seen, target, a + b, k) == OrElse(LastSet(seen, target, b, k), LastSet(seen, target, a, k))
  {
    hide Sets;
    if b == [] {
      assert a + b == a;
    } else {
      var n := |b| - 1;
      assert (a + b)[..|a| + n] == a + b[..n];
      LastSetConcat(seen, target, a, b[..n], k);
    }
  }

  /** A client write always sets its key; with no client write and no rewrite the key is not set. */
  lemma {:induction false} SetOrNot(seen: map<Key, Pointer>, target: nat, qs: seq<Request>, k: Key)
    ensures LastWrite(qs, k).Some? ==> LastSet(seen, target, qs, k).Some?
    ensures LastWrite(qs, k).None? && (forall q :: q in qs && q.Rewrite? ==> q.r.key != k) ==>
              LastSet(seen, target, qs, k).None?
  {
    hide Caught;
    if qs != [] {
      var n := |qs| - 1;
      SetOrNot(seen, target, qs[..n], k);
      assert qs[n] in qs;
      forall q | q in qs[..n] ensures q in qs {
      }
    }
  }

  /** A key that is not set had its rewrites caught. */
  lemma {:induction false} NotSet(seen: map<Key, Pointer>, target: nat, qs: seq<Request>, r: Record)
    requires LastSet(seen, target, qs, r.key).None? && Rewrite(r) in qs
    ensures Caught(seen, target, r)
  {
    hide Caught;
    var n := |qs| - 1;
    if qs[n] != Rewrite(r) {
      assert qs == qs[..n] + [qs[n]];
      NotSet(seen, target, qs[..n], r);
    }
  }

  /** The records a batch rewrites, in order. */
  ghost function Rewrites(qs: seq<Request>): seq<Record> {
    if qs == [] then []
    else Rewrites(qs[..|qs| - 1]) + if qs[|qs| - 1].Rewrite? then [qs[|qs| - 1].r] else []
  }

  lemma {:induction false} RewriteIn(qs: seq<Request>, r: Record)
    ensures r in Rewrites(qs) <==> Rewrite(r) in qs
  {
    if qs != [] {
      var n := |qs| - 1;
      RewriteIn(qs[..n], r);
      assert qs == qs[..n] + [qs[n]];
    }
  }

  ghost predicate DistinctKeys(todo: seq<Record>) {
    forall i, j :: 0 <= i < j < |todo| ==> todo[i].key != todo[j].key
  }

  /** No key is rewritten twice in a batch. */
  lemma {:induction false} RewritesApart(qs: seq<Request>, i: nat, j: nat)
    requires DistinctKeys(Rewrites(qs)) && i < j < |qs| && qs[i].Rewrite? && qs[j].Rewrite?
    ensures qs[i].r.key != qs[j].r.key
  {
    var n := |qs| - 1;
    var front := Rewrites(qs[..n]);
    if j < n {
      assert DistinctKeys(front) by {
        forall a, b | 0 <= a < b < |front| ensures front[a].key != front[b].key {
          assert Rewrites(qs)[a] == front[a] && Rewrites(qs)[b] == front[b];
        }
      }
      RewritesApart(qs[..n], i, j);
    } else {
      RewriteIn(qs[..n], qs[i].r);
      assert qs[..n][i] == qs[i];
      var a :| 0 <= a < |front| && front[a] == qs[i].r;
      assert Rewrites(qs)[a] == front[a] && Rewrites(qs)[|front|] == qs[n].r;
    }
  }

  // ------------------------------------------------------------ doing no harm

  /** Request `i` of a batch that follows the writes `ws` does no harm: if it is a rewrite, the check catches it,
      or its key was not written before it or last given this very value, or a later request of the batch
      writes the key. */
  ghost predicate Harmless(seen: map<Key, Pointer>, target: nat, ws: seq<Request>, qs: seq<Request>, i: nat)
    requires i < |qs|
  {
    qs[i].Rewrite? ==>
      var r := qs[i].r;
      || Caught(seen, target, r) || Stands(LastWrite(ws + qs[..i], r.key), r.value)
      || LastWrite(qs[i + 1..], r.key).Some?
  }

  predicate Stands(last: Option<Option<Bytes>>, v: Bytes) {
    last.None? || last.value == Some(v)
  }

  ghost predicate BatchHarmless(seen: map<Key, Pointer>, target: nat, ws: seq<Request>, qs: seq<Request>) {
    forall i :: 0 <= i < |qs| ==> Harmless(seen, target, ws, qs, i)
  }

  /** Records to be rewritten hold what their keys had at the start. */
  ghost predicate StartValues(values: Key -> Option<Bytes>, ws: seq<Request>, rs: seq<Record>) {
    forall r :: r in rs && LastWrite(ws, r.key).None? ==> values(r.key) == Some(r.value)
  }

  /** After a harmless batch every key has what the writes alone would give it. */
  lemma {:induction false} HarmlessReads(seen: map<Key, Pointer>, target: nat, values: Key -> Option<Bytes>,
                                         ws: seq<Request>, qs: seq<Request>, k: Key)
    requires forall i :: 0 <= i < |qs| && qs[i].Rewrite? && qs[i].r.key == k ==> Harmless(seen, target, ws, qs, i)
    requires StartValues(values, ws, Rewrites(qs))
    ensures var given := LastSet(seen, target, qs, k);
            Expected(values, ws + qs, k) == if given.Some? then given.value else Expected(values, ws, k)
    decreases |qs|
  {
    hide Caught, LastWrite, Rewrites, Sets, LastSet;
    if qs == [] {
      assert ws + qs == ws;
      NothingSet(seen, target, k);
    } else {
      var n := |qs| - 1;
      var front, q := qs[..n], qs[n];
      assert qs == front + [q] && ws + qs == ws + front + [q];
      LastWriteConcat(ws + front, [q], k);
      LastSetConcat(seen, target, front, [q], k);
      OneRequest(seen, target, q, k);
      RewritesAdd(front, q);
      if Sets(seen, target, q, k).None? {
        forall i | 0 <= i < n && front[i].Rewrite? && front[i].r.key == k ensures Harmless(seen, target, ws, front, i) {
          StillHarmless(seen, target, ws, front, q, i);
        }
        HarmlessReads(seen, target, values, ws, front, k);
      } else if q.Rewrite? {
        assert Harmless(seen, target, ws, qs, n) && qs[n + 1..] == [] && q.r in Rewrites(qs);
        LastWriteConcat(ws, front, k);
      }
    }
  }

  lemma NothingSet(seen: map<Key, Pointer>, target: nat, k: Key)
    ensures LastSet(seen, target, [], k).None?
  {
  }

  lemma OneRequest(seen: map<Key, Pointer>, target: nat, q: Request, k: Key)
    ensures LastSet(seen, target, [q], k) == Sets(seen, target, q, k)
    ensures LastWrite([q], k) == (if q.Rewrite? then None else Sets(seen, target, q, k)) && LastWrite([], k).None?
    ensures q.Rewrite? && Sets(seen, target, q, k).Some? ==>
              q.r.key == k && !Caught(seen, target, q.r) && Sets(seen, target, q, k).value == Some(q.r.value)
  {
    hide Caught;
    assert [q][..0] == [];
  }

  lemma StillHarmless(seen: map<Key, Pointer>, target: nat, ws: seq<Request>, front: seq<Request>, q: Request, i: nat)
    requires i < |front| && front[i].Rewrite? && Harmless(seen, target, ws, front + [q], i)
    requires Sets(seen, target, q, front[i].r.key).None?
    ensures Harmless(seen, target, ws, front, i)
  {
    hide Caught, LastWrite, Sets, LastSet;
    var qs := front + [q];
    assert qs[..i] == front[..i] && qs[i + 1..] == front[i + 1..] + [q];
    LastWriteConcat(front[i + 1..], [q], front[i].r.key);
    OneRequest(seen, target, q, front[i].r.key);
  }

  /** A rewrite that is not harmless leaves its key with the old value. */
  lemma HarmReads(seen: map<Key, Pointer>, target: nat, values: Key -> Option<Bytes>, ws: seq<Request>,
                  qs: seq<Request>, i: nat)
    requires i < |qs| && !Harmless(seen, target, ws, qs, i) && DistinctKeys(Rewrites(qs))
    ensures var r := qs[i].r;
            LastSet(seen, target, qs, r.key) == Some(Some(r.value)) && Expected(values, ws + qs, r.key) != Some(r.value)
  {
    hide LastSet, LastWrite, Rewrites, Caught, DistinctKeys, Sets;
    var r := qs[i].r;
    var upto, rest := qs[..i + 1], qs[i + 1..];
    assert qs == upto + rest && upto == qs[..i] + [qs[i]];
    forall q | q in rest && q.Rewrite? ensures q.r.key != r.key {
      var j :| 0 <= j < |rest| && rest[j] == q;
      RewritesApart(qs, i, i + 1 + j);
    }
    SetOrNot(seen, target, rest, r.key);
    LastSetConcat(seen, target, upto, rest, r.key);
    RewriteSets(seen, target, qs[..i], r);
    assert ws + qs == ws + qs[..i] + [qs[i]] + rest;
    RewriteWritesNothing(ws + qs[..i], r, r.key);
    LastWriteConcat(ws + qs[..i] + [qs[i]], rest, r.key);
  }

  lemma RewriteSets(seen: map<Key, Pointer>, target: nat, qs: seq<Request>, r: Record)
    requires !Caught(seen, target, r)
    ensures LastSet(seen, target, qs + [Rewrite(r)], r.key) == Some(Some(r.value))
  {
    hide Caught;
    assert (qs + [Rewrite(r)])[..|qs|] == qs;
  }

  lemma RewriteWritesNothing(ws: seq<Request>, r: Record, k: Key)
    ensures LastWrite(ws + [Rewrite(r)], k) == LastWrite(ws, k)
  {
    assert (ws + [Rewrite(r)])[..|ws|] == ws;
  }

  // ------------------------------------------------------------ the collector

  /** Same file and same offset as the key's current pointer. */
  predicate IsLive(s: State, r: Record, target: nat) {
    var p := Visible(s, r.key);
    p.Some? && p.value.fileId == target && p.value.offset == r.ptr.offset
  }

  lemma {:induction false} OffsetsDiffer(items: Items, id: nat, i: nat, j: nat)
    requires i < j < |items| && AllFit(items)
    ensures ItemPointer(items, id, i).offset < ItemPointer(items, id, j).offset
    decreases j
  {
    hide ItemsBytes, RecordBytes;
    assert items[i] in items && items[j - 1] in items && items[j] in items;
    ItemThere(items, j - 1);
    if i < j - 1 { OffsetsDiffer(items, id, i, j - 1); }
  }

  /** A record judged live is for its key exactly what the store points at. */
  lemma LiveIsCurrent(s: State, target: nat, r: Record)
    requires Sound(s) && target in s.logs && r in RecordsOf(s.logs[target], target) && IsLive(s, r, target)
    ensures Visible(s, r.key) == Some(r.ptr) && ValueOf(s, r.key) == Some(r.value) && ItemFits((r.key, r.value))
  {
    hide ItemsBytes, PointersReal, ReadAt;
    var items := s.logs[target];
    var i: nat :| i < |items| && r == RecordsOf(items, target)[i];
    RealPointer(s, r.key);
    var p := Visible(s, r.key).value;
    var j: nat :| IsRecordAt(items, target, r.key, p, j);
    if i < j { OffsetsDiffer(items, target, i, j); }
    if j < i { OffsetsDiffer(items, target, j, i); }
    RecordReads(items, target, i);
    assert items[i] in items;
  }

  /** While the collector works: its reading of the next record, a freeze of the active memtable, a batch of
      writes by other threads with rewrites of its own. */
  datatype Event = Read | Freeze | Batch(qs: seq<Request>)

  /** The store, how many records have been read, and the live ones among them still to be rewritten. */
  datatype Run = Run(s: State, n: nat, todo: seq<Record>)

  ghost predicate Enabled(r: Run, e: Event) {
    e.Batch? ==> RequestsOk(e.qs) && Rewrites(e.qs) <= r.todo
  }

  ghost function After(r: Run, target: nat, e: Event): Run {
    match e
    case Read => Scanned(r, target)
    case Freeze => r.(s := Frozen(r.s))
    case Batch(qs) =>
      r.(s := Batched(r.s, target, qs), todo := if Rewrites(qs) <= r.todo then r.todo[|Rewrites(qs)|..] else r.todo)
  }

  /** The next record is read, and kept if it is live now. */
  ghost function Scanned(r: Run, target: nat): Run {
    if target in r.s.logs && r.n < |r.s.logs[target]| then
      var x := RecordsOf(r.s.logs[target], target)[r.n];
      r.(n := r.n + 1, todo := if IsLive(r.s, x, target) then r.todo + [x] else r.todo)
    else r
  }

  ghost function AfterAll(r: Run, target: nat, es: seq<Event>): Run {
    if es == [] then r else After(AfterAll(r, target, es[..|es| - 1]), target, es[|es| - 1])
  }

  /** A run the collector and its neighbours can make. */
  ghost predicate RunOk(r: Run, target: nat, es: seq<Event>) {
    forall m :: 0 <= m < |es| ==> EnabledAt(r, target, es, m)
  }

  ghost predicate EnabledAt(r: Run, target: nat, es: seq<Event>, m: nat)
    requires m < |es|
  {
    Enabled(AfterAll(r, target, es[..m]), es[m])
  }

  /** The requests of some events in order. */
  ghost function Requests(es: seq<Event>): seq<Request> {
    if es == [] then [] else Requests(es[..|es| - 1]) + if es[|es| - 1].Batch? then es[|es| - 1].qs else []
  }

  lemma OneMoreEvent(r: Run, target: nat, es: seq<Event>, e: Event)
    ensures Requests(es + [e]) == Requests(es) + if e.Batch? then e.qs else []
    ensures AfterAll(r, target, es + [e]) == After(AfterAll(r, target, es), target, e)
  {
    assert (es + [e])[..|es|] == es;
  }

  // ---------------------------------------------------------- what a run keeps

  /** A record read as live: not written to since the start, its key still points at it. */
  ghost predicate Pending(s: State, values: Key -> Option<Bytes>, ws: seq<Request>, r: Record) {
    && ItemFits((r.key, r.value))
    && (LastWrite(ws, r.key).None? ==> Visible(s, r.key) == Some(r.ptr) && values(r.key) == Some(r.value))
  }

  ghost predicate HasRecord(todo: seq<Record>, k: Key) {
    exists r :: r in todo && r.key == k
  }

  /** The key points at a record not read yet. */
  ghost predicate Unread(s: State, target: nat, n: nat, k: Key) {
    target in s.logs && exists i: nat :: n <= i && Visible(s, k).Some?
                                         && IsRecordAt(s.logs[target], target, k, Visible(s, k).value, i)
  }

  /** `ws` were asked for since the start: every read returns what they alone would give, and every pointer into
      the target file is of a key not written since, whose record is left to rewrite or to read. */
  ghost predicate Collecting(r: Run, target: nat, values: Key -> Option<Bytes>, ws: seq<Request>) {
    && Sound(r.s) && target < r.s.current && target in r.s.logs && r.n <= |r.s.logs[target]|
    && DistinctKeys(r.todo) && (forall x :: x in r.todo ==> x in RecordsOf(r.s.logs[target], target)[..r.n])
    && (forall k :: ValueOf(r.s, k) == Expected(values, ws, k))
    && (forall x :: x in r.todo ==> Pending(r.s, values, ws, x))
    && (forall k :: Into(r.s, k, target) ==> LastWrite(ws, k).None? && Left(r, target, k))
  }

  ghost predicate Left(r: Run, target: nat, k: Key) {
    HasRecord(r.todo, k) || Unread(r.s, target, r.n, k)
  }

  /** Before the first record is read. */
  lemma CollectStart(s: State, target: nat)
    requires Sound(s) && target in s.logs && target < s.current
    ensures Collecting(Run(s, 0, []), target, Values(s), [])
  {
    hide ItemsBytes, ValueOf, PointersReal, AllFit;
    forall k | Into(s, k, target) ensures Unread(s, target, 0, k) {
      RealPointer(s, k);
      var i: nat :| IsRecordAt(s.logs[target], target, k, Visible(s, k).value, i);
    }
  }

  /** Reading the next record. */
  lemma ReadStep(r: Run, target: nat, values: Key -> Option<Bytes>, ws: seq<Request>)
    requires Collecting(r, target, values, ws)
    ensures Collecting(Scanned(r, target), target, values, ws)
  {
    hide ItemsBytes, ValueOf, Sound, LastWrite, ItemPointer, ItemFits, Visible;
    var s, items := r.s, r.s.logs[target];
    if r.n < |items| {
      var rs := RecordsOf(items, target);
      var x, r' := rs[r.n], Scanned(r, target);
      assert rs[..r.n + 1] == rs[..r.n] + [x];
      if IsLive(s, x, target) {
        assert x in rs && Into(s, x.key, target);
        LiveIsCurrent(s, target, x);
        NewKey(r, target, values, ws, x);
      }
      forall k | Into(s, k, target) ensures Left(r', target, k) {
        ReadLeaves(r, target, k);
      }
    }
  }

  lemma NewKey(r: Run, target: nat, values: Key -> Option<Bytes>, ws: seq<Request>, x: Record)
    requires Collecting(r, target, values, ws) && r.n < |r.s.logs[target]|
    requires x == RecordsOf(r.s.logs[target], target)[r.n] && IsLive(r.s, x, target)
    ensures DistinctKeys(r.todo + [x])
  {
    hide ItemsBytes, ValueOf, LastWrite, ItemPointer, ItemFits, Visible, PointersReal;
    var items := r.s.logs[target];
    assert Into(r.s, x.key, target);
    forall i | 0 <= i < |r.todo| ensures r.todo[i].key != x.key {
      var y := r.todo[i];
      assert y in r.todo && Pending(r.s, values, ws, y);
      var j :| 0 <= j < r.n && RecordsOf(items, target)[..r.n][j] == y;
      OffsetsDiffer(items, target, j, r.n);
    }
  }

  lemma ReadLeaves(r: Run, target: nat, k: Key)
    requires target in r.s.logs && r.n < |r.s.logs[target]| && Into(r.s, k, target) && Left(r, target, k)
    ensures Left(Scanned(r, target), target, k)
  {
    hide ItemPointer, Visible;
    var x := RecordsOf(r.s.logs[target], target)[r.n];
    if HasRecord(r.todo, k) {
      var y :| y in r.todo && y.key == k;
      assert y in r.todo + [x];
    } else {
      var i: nat :| r.n <= i && IsRecordAt(r.s.logs[target], target, k, Visible(r.s, k).value, i);
      if i == r.n {
        assert IsLive(r.s, x, target) && x in r.todo + [x];
      }
    }
  }

  lemma FreezeStep(r: Run, target: nat, values: Key -> Option<Bytes>, ws: seq<Request>)
    requires Collecting(r, target, values, ws)
    ensures Collecting(r.(s := Frozen(r.s)), target, values, ws)
  {
    hide Sound, ValueOf, Visible, Frozen;
    FrozenSound(r.s, target);
    forall k ensures Visible(Frozen(r.s), k) == Visible(r.s, k) && ValueOf(Frozen(r.s), k) == ValueOf(r.s, k) {
      FrozenSame(r.s, k);
    }
    SameStep(r, Frozen(r.s), target, values, ws);
  }

  /** A change that no read can see. */
  lemma SameStep(r: Run, s': State, target: nat, values: Key -> Option<Bytes>, ws: seq<Request>)
    requires Collecting(r, target, values, ws) && Sound(s') && SameFile(r.s, s', target)
    requires forall k :: Visible(s', k) == Visible(r.s, k) && ValueOf(s', k) == ValueOf(r.s, k)
    ensures Collecting(r.(s := s'), target, values, ws)
  {
    hide ItemsBytes, ValueOf, Visible, Sound, LastWrite, DistinctKeys, IsRecordAt, ItemPointer;
    var r' := r.(s := s');
    forall k | Into(s', k, target) ensures LastWrite(ws, k).None? && Left(r', target, k) {
      assert Into(r.s, k, target);
    }
  }

  lemma RollStep(r: Run, target: nat, values: Key -> Option<Bytes>, ws: seq<Request>)
    requires Collecting(r, target, values, ws)
    ensures Collecting(r.(s := Rolled(r.s)), target, values, ws)
  {
    hide Sound, ValueOf, Visible, Rolled, SameFile;
    RolledSound(r.s);
    RolledSame(r.s, target, []);
    forall k ensures Visible(Rolled(r.s), k) == Visible(r.s, k) && ValueOf(Rolled(r.s), k) == ValueOf(r.s, k) {
      RolledSame(r.s, target, k);
    }
    SameStep(r, Rolled(r.s), target, values, ws);
  }

  lemma DrainStep(r: Run, seen: map<Key, Pointer>, target: nat, values: Key -> Option<Bytes>, ws: seq<Request>,
                  qs: seq<Request>)
    requires Collecting(r, target, values, ws) && Enabled(r, Batch(qs)) && seen == r.s.active
    requires BatchHarmless(seen, target, ws, qs)
    ensures var r' := Run(Drained(r.s, seen, target, qs), r.n, r.todo[|Rewrites(qs)|..]);
            Collecting(r', target, values, ws + qs)
  {
    hide ItemsBytes, ValueOf, Sound, LastWrite, LastSet, Harmless, Drained, ItemPointer, RequestOk, Rewrites, ItemFits;
    var s', gone := Drained(r.s, seen, target, qs), |Rewrites(qs)|;
    var r' := Run(s', r.n, r.todo[gone..]);
    DrainedSound(r.s, seen, target, qs);
    assert StartValues(values, ws, Rewrites(qs)) by { TodoValues(r, target, values, ws, Rewrites(qs)); }
    forall k ensures ValueOf(s', k) == Expected(values, ws + qs, k) {
      DrainedShows(r.s, seen, target, qs, k);
      HarmlessReads(seen, target, values, ws, qs, k);
    }
    forall x | x in r'.todo ensures x in r.todo && Pending(s', values, ws + qs, x) {
      DrainPending(r, seen, target, values, ws, qs, x);
    }
    forall k | Into(s', k, target) ensures LastWrite(ws + qs, k).None? && Left(r', target, k) {
      DrainLeaves(r, seen, target, values, ws, qs, k);
    }
  }

  lemma TodoValues(r: Run, target: nat, values: Key -> Option<Bytes>, ws: seq<Request>, rs: seq<Record>)
    requires Collecting(r, target, values, ws) && rs <= r.todo
    ensures StartValues(values, ws, rs) && DistinctKeys(rs)
  {
    hide ItemsBytes, ValueOf, Sound, LastWrite, ItemPointer;
    forall x | x in rs ensures x in r.todo {
    }
  }

  lemma DrainPending(r: Run, seen: map<Key, Pointer>, target: nat, values: Key -> Option<Bytes>, ws: seq<Request>,
                     qs: seq<Request>, x: Record)
    requires Collecting(r, target, values, ws) && Enabled(r, Batch(qs)) && x in r.todo[|Rewrites(qs)|..]
    ensures x in r.todo && Pending(Drained(r.s, seen, target, qs), values, ws + qs, x)
  {
    hide ItemsBytes, ValueOf, LastWrite, LastSet, Drained, ItemPointer, RequestOk, Rewrites, ItemFits, PointersReal,
         Visible;
    var gone := |Rewrites(qs)|;
    var i :| 0 <= i < |r.todo| - gone && r.todo[gone..][i] == x;
    assert r.todo[gone + i] == x && x in r.todo && Pending(r.s, values, ws, x);
    LastWriteConcat(ws, qs, x.key);
    forall q | q in qs && q.Rewrite? ensures q.r.key != x.key {
      RewriteIn(qs, q.r);
      var j :| 0 <= j < gone && Rewrites(qs)[j] == q.r;
      assert r.todo[j] == q.r;
    }
    SetOrNot(seen, target, qs, x.key);
    DrainedShows(r.s, seen, target, qs, x.key);
  }

  lemma DrainLeaves(r: Run, seen: map<Key, Pointer>, target: nat, values: Key -> Option<Bytes>, ws: seq<Request>,
                    qs: seq<Request>, k: Key)
    requires Collecting(r, target, values, ws) && Enabled(r, Batch(qs)) && seen == r.s.active
    requires Into(Drained(r.s, seen, target, qs), k, target)
    ensures LastWrite(ws + qs, k).None?
    ensures Left(Run(Drained(r.s, seen, target, qs), r.n, r.todo[|Rewrites(qs)|..]), target, k)
  {
    hide ItemsBytes, ValueOf, LastWrite, LastSet, Drained, ItemPointer, RequestOk, Rewrites, ItemFits, PointersReal;
    DrainedShows(r.s, seen, target, qs, k);
    DrainedSound(r.s, seen, target, qs);
    assert Into(r.s, k, target);
    SetOrNot(seen, target, qs, k);
    LastWriteConcat(ws, qs, k);
    if HasRecord(r.todo, k) {
      var x :| x in r.todo && x.key == k;
      RewriteIn(qs, x);
      if Rewrite(x) in qs { NotSet(seen, target, qs, x); }
      assert !Caught(seen, target, x);
      assert r.todo == Rewrites(qs) + r.todo[|Rewrites(qs)|..];
    }
  }

  /** A batch whose rewrites do no harm. */
  lemma BatchStep(r: Run, target: nat, values: Key -> Option<Bytes>, ws: seq<Request>, qs: seq<Request>)
    requires Collecting(r, target, values, ws) && Enabled(r, Batch(qs)) && BatchHarmless(r.s.active, target, ws, qs)
    ensures Collecting(After(r, target, Batch(qs)), target, values, ws + qs)
  {
    hide Collecting, BatchHarmless, Rewrites, Drained, RequestsOk, ItemsBytes;
    RollStep(r, target, values, ws);
    DrainStep(r.(s := Rolled(r.s)), r.s.active, target, values, ws, qs);
  }

  /** A batch with a rewrite that does: its key has the old value again. */
  lemma BatchHarms(r: Run, target: nat, values: Key -> Option<Bytes>, ws: seq<Request>, qs: seq<Request>, i: nat)
    requires Collecting(r, target, values, ws) && Enabled(r, Batch(qs))
    requires i < |qs| && !Harmless(r.s.active, target, ws, qs, i)
    ensures var x := qs[i].r;
            ValueOf(Batched(r.s, target, qs), x.key) == Some(x.value) != Expected(values, ws + qs, x.key)
  {
    hide Collecting, Harmless, Rewrites, Drained, RequestsOk, ItemsBytes, LastSet, ValueOf, Expected, Sound;
    RollStep(r, target, values, ws);
    TodoValues(r, target, values, ws, Rewrites(qs));
    assert qs[i].Rewrite? by { NotHarmless(r.s.active, target, ws, qs, i); }
    var s := Rolled(r.s);
    assert Sound(s) by { CollectingSound(r.(s := s), target, values, ws); }
    HarmReads(r.s.active, target, values, ws, qs, i);
    DrainedShows(s, r.s.active, target, qs, qs[i].r.key);
  }

  lemma NotHarmless(seen: map<Key, Pointer>, target: nat, ws: seq<Request>, qs: seq<Request>, i: nat)
    requires i < |qs| && !Harmless(seen, target, ws, qs, i)
    ensures qs[i].Rewrite?
  {
  }

  lemma CollectingSound(r: Run, target: nat, values: Key -> Option<Bytes>, ws: seq<Request>)
    requires Collecting(r, target, values, ws)
    ensures Sound(r.s)
  {
    hide Sound, ValueOf;
  }

  lemma {:induction false} RewritesPrefix(qs: seq<Request>, j: nat)
    requires j <= |qs|
    ensures Rewrites(qs[..j]) <= Rewrites(qs)
  {
    if j < |qs| {
      var n := |qs| - 1;
      assert qs[..n][..j] == qs[..j];
      RewritesPrefix(qs[..n], j);
    } else {
      assert qs[..j] == qs;
    }
  }

  /** While the pointers of a batch go in, reads return what the writes inserted so far would give if and only if
      the rewrites inserted so far are harmless among them. */
  lemma MidBatchExact(r: Run, target: nat, values: Key -> Option<Bytes>, ws: seq<Request>, qs: seq<Request>, j: nat)
    requires Collecting(r, target, values, ws) && Enabled(r, Batch(qs)) && j <= |qs|
    ensures var mid := Batched(r.s, target, qs[..j]).(logs := Batched(r.s, target, qs).logs,
                                                      current := Batched(r.s, target, qs).current);
            (forall k :: ValueOf(mid, k) == Expected(values, ws + qs[..j], k)) <==>
            BatchHarmless(r.s.active, target, ws, qs[..j])
  {
    hide Collecting, Rewrites, Drained, RequestOk, ValueOf, Expected, Harmless, Sound, Visible;
    var part := qs[..j];
    var mid := Batched(r.s, target, part).(logs := Batched(r.s, target, qs).logs,
                                           current := Batched(r.s, target, qs).current);
    RewritesPrefix(qs, j);
    CollectingSound(r, target, values, ws);
    RolledSound(r.s);
    forall k ensures ValueOf(mid, k) == ValueOf(Batched(r.s, target, part), k) {
      MidBatch(Rolled(r.s), r.s.active, target, qs, j, k);
    }
    if BatchHarmless(r.s.active, target, ws, part) {
      BatchStep(r, target, values, ws, part);
      CollectedReads(After(r, target, Batch(part)), target, values, ws + part);
    } else {
      var i :| 0 <= i < |part| && !Harmless(r.s.active, target, ws, part, i);
      BatchHarms(r, target, values, ws, part, i);
      NotHarmless(r.s.active, target, ws, part, i);
      assert ValueOf(mid, part[i].r.key) != Expected(values, ws + part, part[i].r.key);
    }
  }

  lemma CollectedReads(r: Run, target: nat, values: Key -> Option<Bytes>, ws: seq<Request>)
    requires Collecting(r, target, values, ws)
    ensures forall k :: ValueOf(r.s, k) == Expected(values, ws, k)
  {
    hide Sound, ValueOf, Expected;
  }

  // ------------------------------------------------------------- over whole runs

  /** At every point of the run every read returns what the writes alone would give. */
  ghost predicate ReadsFollow(r: Run, target: nat, values: Key -> Option<Bytes>, es: seq<Event>) {
    forall n :: 0 <= n <= |es| ==> ReadsFollowAt(r, target, values, es, n)
  }

  ghost predicate ReadsFollowAt(r: Run, target: nat, values: Key -> Option<Bytes>, es: seq<Event>, n: nat)
    requires n <= |es|
  {
    forall k :: ValueOf(AfterAll(r, target, es[..n]).s, k) == Expected(values, Requests(es[..n]), k)
  }

  /** Every rewrite of the run is harmless in its batch. */
  ghost predicate AllHarmless(r: Run, target: nat, es: seq<Event>) {
    forall n :: 0 <= n < |es| ==> HarmlessAt(r, target, es, n)
  }

  ghost predicate HarmlessAt(r: Run, target: nat, es: seq<Event>, n: nat)
    requires n < |es|
  {
    es[n].Batch? ==> BatchHarmless(AfterAll(r, target, es[..n]).s.active, target, Requests(es[..n]), es[n].qs)
  }

  ghost predicate CollectingAt(r: Run, target: nat, values: Key -> Option<Bytes>, es: seq<Event>) {
    Collecting(AfterAll(r, target, es), target, values, Requests(es))
  }

  lemma {:induction false} RunCollects(r: Run, target: nat, values: Key -> Option<Bytes>, es: seq<Event>, n: nat)
    requires Collecting(r, target, values, []) && RunOk(r, target, es) && n <= |es|
    requires forall m :: 0 <= m < n ==> HarmlessAt(r, target, es, m)
    ensures CollectingAt(r, target, values, es[..n])
  {
    hide Collecting, BatchHarmless, Batched, Frozen, Scanned, Rewrites, Enabled;
    if n == 0 {
      assert es[..0] == [];
    } else {
      var front, e := es[..n - 1], es[n - 1];
      RunCollects(r, target, values, es, n - 1);
      var now := AfterAll(r, target, front);
      assert es[..n] == front + [e];
      OneMoreEvent(r, target, front, e);
      assert HarmlessAt(r, target, es, n - 1) && EnabledAt(r, target, es, n - 1);
      match e
      case Read => ReadStep(now, target, values, Requests(front)); NoMore(Requests(front));
      case Freeze => FreezeStep(now, target, values, Requests(front)); NoMore(Requests(front));
      case Batch(qs) => BatchStep(now, target, values, Requests(front), qs);
    }
  }

  lemma NoMore(ws: seq<Request>)
    ensures ws + [] == ws
  {
  }

  /** Over any interleaving of the collector's reading with freezes and with batches of puts, deletes and its
      rewrites, every read between batches returns what the puts and deletes alone would give if and only if
      every rewrite is harmless in its batch. */
  lemma GcExact(r: Run, target: nat, values: Key -> Option<Bytes>, es: seq<Event>)
    requires Collecting(r, target, values, []) && RunOk(r, target, es)
    ensures ReadsFollow(r, target, values, es) <==> AllHarmless(r, target, es)
    ensures AllHarmless(r, target, es) ==> CollectingAt(r, target, values, es)
  {
    hide Collecting, HarmlessAt, AfterAll, Expected, ValueOf, RunOk, Requests;
    if AllHarmless(r, target, es) {
      forall n | 0 <= n <= |es| ensures ReadsFollowAt(r, target, values, es, n) {
        RunCollects(r, target, values, es, n);
        CollectingReads(r, target, values, es, n);
      }
      RunCollects(r, target, values, es, |es|);
      assert es[..|es|] == es;
    } else {
      var n := FirstHarm(r, target, es);
      RunCollects(r, target, values, es, n);
      HarmShows(r, target, values, es, n);
    }
  }

  /** From a store at rest, with nothing read yet. */
  lemma GcExactFromStart(s: State, target: nat, es: seq<Event>)
    requires Sound(s) && target in s.logs && target < s.current && RunOk(Run(s, 0, []), target, es)
    ensures ReadsFollow(Run(s, 0, []), target, Values(s), es) <==> AllHarmless(Run(s, 0, []), target, es)
  {
    hide Sound, Collecting, ReadsFollow, AllHarmless, RunOk, ValueOf;
    CollectStart(s, target);
    GcExact(Run(s, 0, []), target, Values(s), es);
  }

  lemma CollectingReads(r: Run, target: nat, values: Key -> Option<Bytes>, es: seq<Event>, n: nat)
    requires n <= |es| && CollectingAt(r, target, values, es[..n])
    ensures ReadsFollowAt(r, target, values, es, n)
  {
    hide AfterAll, Expected, ValueOf, Requests, Sound;
  }

  lemma FirstHarm(r: Run, target: nat, es: seq<Event>) returns (n: nat)
    requires !AllHarmless(r, target, es)
    ensures n < |es| && !HarmlessAt(r, target, es, n) && forall m :: 0 <= m < n ==> HarmlessAt(r, target, es, m)
  {
    hide HarmlessAt;
    n := 0;
    while HarmlessAt(r, target, es, n)
      invariant n < |es| && forall m :: 0 <= m < n ==> HarmlessAt(r, target, es, m)
      decreases |es| - n
    {
      assert n + 1 == |es| ==> AllHarmless(r, target, es);
      n := n + 1;
    }
  }

  lemma HarmShows(r: Run, target: nat, values: Key -> Option<Bytes>, es: seq<Event>, n: nat)
    requires n < |es| && CollectingAt(r, target, values, es[..n]) && !HarmlessAt(r, target, es, n)
    requires RunOk(r, target, es)
    ensures !ReadsFollowAt(r, target, values, es, n + 1)
  {
    hide Collecting, Harmless, Expected, ValueOf, Batched, Enabled;
    var now, qs := AfterAll(r, target, es[..n]), es[n].qs;
    assert es[..n + 1] == es[..n] + [es[n]];
    OneMoreEvent(r, target, es[..n], es[n]);
    assert EnabledAt(r, target, es, n);
    var i :| 0 <= i < |qs| && !Harmless(now.s.active, target, Requests(es[..n]), qs, i);
    BatchHarms(now, target, values, Requests(es[..n]), qs, i);
    NotHarmless(now.s.active, target, Requests(es[..n]), qs, i);
    assert AfterAll(r, target, es[..n + 1]).s == Batched(now.s, target, qs);
  }

  // ----------------------------------------------------- when no harm can be done

  /** Keys written since the start are in the active memtable in a newer file. */
  ghost predicate AllCaught(s: State, target: nat, ws: seq<Request>) {
    target < s.current && forall k :: LastWrite(ws, k).Some? ==> k in s.active && s.active[k].fileId > target
  }

  /** No freeze, deletes stamped above the target, and no rewrite behind a write of its key in one batch. */
  ghost predicate Gentle(target: nat, e: Event) {
    !e.Freeze? && (e.Batch? ==> HighStamps(target, e.qs) && RewritesFirst(e.qs))
  }

  ghost predicate HighStamps(target: nat, qs: seq<Request>) {
    forall q :: q in qs && q.Delete? ==> q.walId > target
  }

  ghost predicate RewritesFirst(qs: seq<Request>) {
    forall i :: 0 <= i < |qs| && qs[i].Rewrite? ==> LastWrite(qs[..i], qs[i].r.key).None?
  }

  /** Then every rewrite is harmless. */
  lemma {:induction false} WritesCaught(r: Run, target: nat, es: seq<Event>)
    requires target < r.s.current && forall e :: e in es ==> Gentle(target, e)
    ensures AllHarmless(r, target, es) && AllCaught(AfterAll(r, target, es).s, target, Requests(es))
  {
    hide Batched, Scanned, Gentle, AllCaught;
    if es == [] {
      NothingWritten(r.s, target);
    } else {
      var n := |es| - 1;
      var front, e := es[..n], es[n];
      assert e in es && front + [e] == es;
      WritesCaught(r, target, front);
      OneMoreEvent(r, target, front, e);
      var now := AfterAll(r, target, front);
      CaughtStep(now, target, Requests(front), e);
      forall m | 0 <= m < |es| ensures HarmlessAt(r, target, es, m) {
        assert es[..m] == front[..m];
        if m < n { assert HarmlessAt(r, target, front, m); }
        assert m == n ==> es[..m] == front;
      }
    }
  }

  lemma NothingWritten(s: State, target: nat)
    requires target < s.current
    ensures AllCaught(s, target, [])
  {
  }

  lemma CaughtStep(r: Run, target: nat, ws: seq<Request>, e: Event)
    requires AllCaught(r.s, target, ws) && Gentle(target, e)
    ensures AllCaught(After(r, target, e).s, target, ws + if e.Batch? then e.qs else [])
    ensures e.Batch? ==> BatchHarmless(r.s.active, target, ws, e.qs)
  {
    hide ItemsBytes, LastWrite, Drained, Rewrites;
    if e.Batch? {
      var qs := e.qs;
      CaughtDrain(Rolled(r.s), r.s.active, target, ws, qs);
      forall i | 0 <= i < |qs| ensures Harmless(r.s.active, target, ws, qs, i) {
        if qs[i].Rewrite? { LastWriteConcat(ws, qs[..i], qs[i].r.key); }
      }
    } else {
      NoMore(ws);
    }
  }

  lemma {:induction false} CaughtDrain(s: State, seen: map<Key, Pointer>, target: nat, ws: seq<Request>,
                                       qs: seq<Request>)
    requires AllCaught(s, target, ws) && HighStamps(target, qs)
    ensures AllCaught(Drained(s, seen, target, qs), target, ws + qs)
  {
    hide One, AllCaught;
    if qs == [] {
      NoMore(ws);
    } else {
      var n := |qs| - 1;
      assert qs[n] in qs && ws + qs == ws + qs[..n] + [qs[n]];
      CaughtDrain(s, seen, target, ws, qs[..n]);
      CaughtOne(Drained(s, seen, target, qs[..n]), seen, target, ws + qs[..n], qs[n]);
    }
  }

  lemma CaughtOne(s: State, seen: map<Key, Pointer>, target: nat, ws: seq<Request>, q: Request)
    requires AllCaught(s, target, ws) && (q.Delete? ==> q.walId > target)
    ensures AllCaught(One(s, seen, target, q), target, ws + [q])
  {
    hide ItemsBytes, Caught;
    forall k ensures LastWrite(ws + [q], k)
                     == OrElse(if q.Rewrite? then None else Sets(map[], 0, q, k), LastWrite(ws, k)) {
      assert (ws + [q])[..|ws|] == ws;
    }
  }

  // ---------------------------------------------------------------- what is lost

  /** Any record left to rewrite, any client write of its key that does not stand, and the rewrite behind it in
      one batch: the old value comes back, whatever the stamps. */
  lemma BatchLosesWrite(r: Run, target: nat, values: Key -> Option<Bytes>, ws: seq<Request>, w: Request)
    requires Collecting(r, target, values, ws) && r.todo != [] && !Caught(r.s.active, target, r.todo[0])
    requires RequestOk(w) && !w.Rewrite? && w.k == r.todo[0].key && (w.Put? ==> w.v != r.todo[0].value)
    ensures var x := r.todo[0];
            ValueOf(Batched(r.s, target, [w, Rewrite(x)]), x.key)
            == Some(x.value) != Expected(values, ws + [w, Rewrite(x)], x.key)
  {
    hide Batched, ValueOf, Expected, Sound;
    var x := r.todo[0];
    var qs := [w, Rewrite(x)];
    OneRewrite(r, target, values, ws, [w]);
    assert [w] + [Rewrite(x)] == qs && qs[..1] == [w] && qs[2..] == [];
    WriteLast(ws, w, x.key);
    BatchHarms(r, target, values, ws, qs, 1);
  }

  lemma WriteLast(ws: seq<Request>, w: Request, k: Key)
    requires !w.Rewrite? && w.k == k
    ensures LastWrite(ws + [w], k) == Some(if w.Put? then Some(w.v) else None) && LastWrite([], k).None?
  {
    assert (ws + [w])[..|ws|] == ws;
  }

  /** Client writes and then the next rewrite make a batch the collector can be in. */
  lemma OneRewrite(r: Run, target: nat, values: Key -> Option<Bytes>, ws: seq<Request>, cs: seq<Request>)
    requires Collecting(r, target, values, ws) && r.todo != [] && RequestsOk(cs)
    requires |cs| <= 1 && forall q :: q in cs ==> !q.Rewrite?
    ensures Enabled(r, Batch(cs + [Rewrite(r.todo[0])])) && Rewrites(cs + [Rewrite(r.todo[0])]) == [r.todo[0]]
  {
    hide Collecting, RequestOk, Rewrites;
    var x := r.todo[0];
    NextFits(r, target, values, ws);
    RewritesAdd(cs, Rewrite(x));
    if cs == [] { NoRewrites(); } else {
      assert cs[0] in cs && cs == [] + [cs[0]];
      NoRewrites();
      RewritesAdd([], cs[0]);
    }
    assert r.todo[..1] == [x];
  }

  lemma NoRewrites()
    ensures Rewrites([]) == []
  {
  }

  lemma RewritesAdd(qs: seq<Request>, q: Request)
    ensures Rewrites(qs + [q]) == Rewrites(qs) + if q.Rewrite? then [q.r] else []
  {
    assert (qs + [q])[..|qs|] == qs;
  }

  lemma NextFits(r: Run, target: nat, values: Key -> Option<Bytes>, ws: seq<Request>)
    requires Collecting(r, target, values, ws) && r.todo != []
    ensures RequestOk(Rewrite(r.todo[0]))
  {
    hide ValueOf, Sound, LastWrite, DistinctKeys, ItemFits, Visible;
    assert r.todo[0] in r.todo && Pending(r.s, values, ws, r.todo[0]);
  }

  /** A key not written since the start is not caught. */
  lemma UnwrittenNotCaught(r: Run, target: nat, values: Key -> Option<Bytes>, ws: seq<Request>)
    requires Collecting(r, target, values, ws) && r.todo != [] && LastWrite(ws, r.todo[0].key).None?
    ensures !Caught(r.s.active, target, r.todo[0])
  {
    hide ValueOf, Sound, LastWrite;
    var x := r.todo[0];
    assert x in r.todo && Pending(r.s, values, ws, x);
    var i :| 0 <= i < r.n && RecordsOf(r.s.logs[target], target)[..r.n][i] == x;
  }

  /** A rewrite in a batch of its own: if its key has been written since and the check misses that, the old value
      comes back. */
  lemma RewriteHarms(r: Run, target: nat, values: Key -> Option<Bytes>, ws: seq<Request>)
    requires Collecting(r, target, values, ws) && r.todo != [] && !Caught(r.s.active, target, r.todo[0])
    requires !Stands(LastWrite(ws, r.todo[0].key), r.todo[0].value)
    ensures var x := r.todo[0];
            ValueOf(Batched(r.s, target, [Rewrite(x)]), x.key)
            == Some(x.value) != Expected(values, ws + [Rewrite(x)], x.key)
  {
    hide Batched, ValueOf, Expected, Collecting, Caught, Stands;
    var qs := [Rewrite(r.todo[0])];
    OneRewrite(r, target, values, ws, []);
    assert [] + qs == qs && qs[..0] == [] && qs[1..] == [] && ws + [] == ws;
    assert LastWrite([], r.todo[0].key).None?;
    BatchHarms(r, target, values, ws, qs, 0);
  }

  /** A client write alone in a batch. */
  lemma WriteStep(r: Run, target: nat, values: Key -> Option<Bytes>, ws: seq<Request>, w: Request)
    requires Collecting(r, target, values, ws) && RequestOk(w) && !w.Rewrite?
    ensures After(r, target, Batch([w])) == r.(s := Batched(r.s, target, [w]))
    ensures Collecting(r.(s := Batched(r.s, target, [w])), target, values, ws + [w])
  {
    hide Collecting, Batched, RequestOk;
    assert [w][..0] == [] && Rewrites([w]) == [];
    assert r.todo[0..] == r.todo;
    BatchStep(r, target, values, ws, [w]);
  }

  /** Any record left to rewrite: a client write of its key, a freeze, and the rewrite. */
  lemma FreezeLosesWrite(r: Run, target: nat, values: Key -> Option<Bytes>, ws: seq<Request>, w: Request)
    requires Collecting(r, target, values, ws) && r.todo != []
    requires RequestOk(w) && !w.Rewrite? && w.k == r.todo[0].key && (w.Put? ==> w.v != r.todo[0].value)
    ensures var x := r.todo[0];
            && RunOk(r, target, [Batch([w]), Freeze, Batch([Rewrite(x)])])
            && ValueOf(AfterAll(r, target, [Batch([w]), Freeze, Batch([Rewrite(x)])]).s, x.key) == Some(x.value)
  {
    hide Collecting, Batched, ValueOf, Expected, LastWrite, Rewrites, RequestOk;
    var x := r.todo[0];
    WriteStep(r, target, values, ws, w);
    var r1 := r.(s := Batched(r.s, target, [w]));
    var r2 := r1.(s := Frozen(r1.s));
    FreezeStep(r1, target, values, ws + [w]);
    WriteLast(ws, w, x.key);
    RewriteHarms(r2, target, values, ws + [w]);
    OneRewrite(r2, target, values, ws + [w], []);
    assert [] + [Rewrite(x)] == [Rewrite(x)];
    OnlyWrite(r, w);
    ThreeEvents(r, target, Batch([w]), Freeze, Batch([Rewrite(x)]));
  }

  lemma OnlyWrite(r: Run, w: Request)
    requires RequestOk(w) && !w.Rewrite?
    ensures Enabled(r, Batch([w]))
  {
    assert [w][..0] == [] && Rewrites([w]) == [];
  }

  lemma ThreeEvents(r: Run, target: nat, a: Event, b: Event, c: Event)
    ensures var r1 := After(r, target, a); var r2 := After(r1, target, b);
            && AfterAll(r, target, [a, b, c]) == After(r2, target, c)
            && (RunOk(r, target, [a, b, c]) <==> Enabled(r, a) && Enabled(r1, b) && Enabled(r2, c))
  {
    hide Enabled, After;
    var es := [a, b, c];
    TwoEvents(r, target, a, b);
    assert es[..2] == [a, b] && es[..1] == [a] && es[..0] == [] && [] + [a] == [a] && [a, b] + [c] == es;
    OneMoreEvent(r, target, [], a);
    OneMoreEvent(r, target, [a, b], c);
    assert RunOk(r, target, es) ==>
             EnabledAt(r, target, es, 0) && EnabledAt(r, target, es, 1) && EnabledAt(r, target, es, 2);
  }

  /** Any record left to rewrite: a delete stamped no higher than the target, and the rewrite. */
  lemma RewriteUndoesDelete(r: Run, target: nat, values: Key -> Option<Bytes>, ws: seq<Request>, walId: nat)
    requires Collecting(r, target, values, ws) && r.todo != [] && walId <= target
    ensures var x := r.todo[0]; var es := [Batch([Delete(x.key, walId)]), Batch([Rewrite(x)])];
            RunOk(r, target, es) && ValueOf(AfterAll(r, target, es).s, x.key) == Some(x.value)
  {
    hide Collecting, ValueOf, Expected, LastWrite, Rewrites, ItemsBytes;
    var x, w := r.todo[0], Delete(r.todo[0].key, walId);
    WriteStep(r, target, values, ws, w);
    var r1 := r.(s := Batched(r.s, target, [w]));
    assert [w][..0] == [];
    assert Drained(Rolled(r.s), r.s.active, target, [w]) == Deleted(Rolled(r.s), x.key, walId);
    hide Batched, Drained;
    WriteLast(ws, w, x.key);
    RewriteHarms(r1, target, values, ws + [w]);
    OneRewrite(r1, target, values, ws + [w], []);
    assert [] + [Rewrite(x)] == [Rewrite(x)];
    OnlyWrite(r, w);
    TwoEvents(r, target, Batch([w]), Batch([Rewrite(x)]));
  }

  lemma TwoEvents(r: Run, target: nat, a: Event, b: Event)
    ensures AfterAll(r, target, [a, b]) == After(After(r, target, a), target, b)
    ensures RunOk(r, target, [a, b]) <==> Enabled(r, a) && Enabled(After(r, target, a), b)
  {
    hide Enabled, After;
    var es := [a, b];
    assert es[..1] == [a] && es[..0] == [] && [] + [a] == [a] && [a] + [b] == es;
    OneMoreEvent(r, target, [], a);
    OneMoreEvent(r, target, [a], b);
    assert RunOk(r, target, es) ==> EnabledAt(r, target, es, 0) && EnabledAt(r, target, es, 1);
  }

  // ------------------------------------------------------------------- ending

  /** With every record read and none left to rewrite, dropping the file changes no value and leaves no pointer
      into it. */
  lemma DropFile(r: Run, target: nat, values: Key -> Option<Bytes>, ws: seq<Request>, k: Key)
    requires Collecting(r, target, values, ws) && r.todo == [] && r.n == |r.s.logs[target]|
    ensures var s' := r.s.(logs := r.s.logs - {target});
            ValueOf(s', k) == Expected(values, ws, k) && !Into(s', k, target) && PointerReal(s', k)
  {
    hide ItemsBytes, ReadAt, Pending, IsRecord, LastWrite, ItemPointer;
    assert !Into(r.s, k, target);
    RealPointer(r.s, k);
  }

  /** A store of one key: its value in file 1, file 2 current. */
  ghost function SmallStore(k: Key, v: Bytes): State {
    State(map[k := ItemPointer([(k, v)], 1, 0)], _ => None, map[1 := [(k, v)], 2 := []], 2, 4 * 1024 * 1024)
  }

  /** There one reading leaves the collector with that one record. */
  lemma SmallStart(k: Key, v: Bytes)
    requires ItemFits((k, v))
    ensures var s := SmallStore(k, v); var r := Run(s, 1, [Record(k, v, ItemPointer([(k, v)], 1, 0))]);
            Sound(s) && After(Run(s, 0, []), 1, Read) == r && Collecting(r, 1, Values(s), [])
  {
    hide Collecting, ReadAt;
    var s, items := SmallStore(k, v), [(k, v)];
    assert items[..0] == [];
    EmptyFile();
    assert IsRecordAt(items, 1, k, s.active[k], 0);
    CollectStart(s, 1);
    ReadStep(Run(s, 0, []), 1, Values(s), []);
    assert [] + [Record(k, v, ItemPointer(items, 1, 0))] == [Record(k, v, ItemPointer(items, 1, 0))];
  }

  /** The losses at concrete inputs: behind a freeze, by a low stamp, and in one batch with no freeze and any
      stamp. */
  lemma LossesHappen(k: Key, v: Bytes, v': Bytes, walId: nat)
    requires ItemFits((k, v)) && ItemFits((k, v')) && v != v'
    ensures var s, x := SmallStore(k, v), Record(k, v, ItemPointer([(k, v)], 1, 0));
            var r := After(Run(s, 0, []), 1, Read);
            && ValueOf(AfterAll(r, 1, [Batch([Put(k, v')]), Freeze, Batch([Rewrite(x)])]).s, k) == Some(v)
            && ValueOf(AfterAll(r, 1, [Batch([Delete(k, 1)]), Batch([Rewrite(x)])]).s, k) == Some(v)
            && ValueOf(After(r, 1, Batch([Put(k, v'), Rewrite(x)])).s, k) == Some(v)
            && ValueOf(After(r, 1, Batch([Delete(k, walId), Rewrite(x)])).s, k) == Some(v)
  {
    hide Collecting, AfterAll, ValueOf, Sound, Batched, Rewrites, Scanned, ItemPointer, Expected, RunOk;
    SmallStart(k, v);
    var s, x := SmallStore(k, v), Record(k, v, ItemPointer([(k, v)], 1, 0));
    var r, values := Run(s, 1, [x]), Values(s);
    FreezeLosesWrite(r, 1, values, [], Put(k, v'));
    RewriteUndoesDelete(r, 1, values, [], 1);
    UnwrittenNotCaught(r, 1, values, []);
    BatchLosesWrite(r, 1, values, [], Put(k, v'));
    BatchLosesWrite(r, 1, values, [], Delete(k, walId));
  }

  // ------------------------------------------------------------ the procedure

  /** The live records of a file: those the store points at. */
  function LiveOf(s: State, rs: seq<Record>, target: nat): (live: seq<Record>) {
    if rs == [] then []
    else
      var r := rs[|rs| - 1];
      LiveOf(s, rs[..|rs| - 1], target) + if IsLive(s, r, target) then [r] else []
  }

  /** A scan nothing comes between. */
  lemma {:induction false} ScanCollects(s: State, target: nat, n: nat)
    requires Sound(s) && target in s.logs && target < s.current && n <= |s.logs[target]|
    ensures var rs := RecordsOf(s.logs[target], target);
            Collecting(Run(s, n, LiveOf(s, rs[..n], target)), target, Values(s), [])
  {
    hide Collecting, IsLive, ItemPointer, Sound, ValueOf;
    var rs := RecordsOf(s.logs[target], target);
    if n == 0 {
      CollectStart(s, target);
      assert rs[..0] == [];
    } else {
      ScanCollects(s, target, n - 1);
      assert rs[..n][..n - 1] == rs[..n - 1];
      ReadStep(Run(s, n - 1, LiveOf(s, rs[..n - 1], target)), target, Values(s), []);
      assert LiveOf(s, rs[..n - 1], target) + [] == LiveOf(s, rs[..n - 1], target);
    }
  }

  /** The scan has read `n` records of the file. */
  ghost predicate ScanAt(s: State, target: nat, n: nat, at: nat, live: seq<Record>) {
    && target in s.logs && n <= |s.logs[target]| && at == |ItemsBytes(s.logs[target][..n])|
    && live == LiveOf(s, RecordsOf(s.logs[target], target)[..n], target)
  }

  lemma ScanTurn(s: State, target: nat, n: nat, at: nat, live: seq<Record>)
    requires ScanAt(s, target, n, at, live) && AllFit(s.logs[target])
    ensures var items := s.logs[target]; var r := ReadNext(ItemsBytes(items), target, at);
            if n == |items| then r.None?
            else
              && r.Some? && r.value.0 == RecordsOf(items, target)[n]
              && ScanAt(s, target, n + 1, r.value.1, live + if IsLive(s, r.value.0, target) then [r.value.0] else [])
  {
    hide ItemsBytes, ReadNext, IsLive, ItemFits;
    var items := s.logs[target];
    if n == |items| {
      assert items[..n] == items;
      ReadEnd(ItemsBytes(items), target);
    } else {
      ReadItem(items, target, n);
      var rs := RecordsOf(items, target);
      assert rs[..n + 1][..n] == rs[..n];
    }
  }

  lemma ScanDone(s: State, target: nat, at: nat, live: seq<Record>)
    requires target in s.logs && ScanAt(s, target, |s.logs[target]|, at, live)
    ensures live == LiveOf(s, RecordsOf(s.logs[target], target), target)
  {
    hide ItemsBytes, LiveOf;
    var rs := RecordsOf(s.logs[target], target);
    assert rs[..|rs|] == rs;
  }

  lemma ScanBegins(s: State, target: nat)
    requires target in s.logs
    ensures ScanAt(s, target, 0, 0, [])
  {
    assert s.logs[target][..0] == [];
  }

  /** The smallest file number below the current one; zero if that is the number or there is none. */
  ghost predicate IsOldest(logs: map<nat, Items>, current: nat, target: nat) {
    if target > 0 then target in logs && target < current && forall id :: id in logs ==> target <= id
    else 0 in logs || forall id :: id in logs ==> current <= id
  }

  /** Key and value bytes of some records. */
  ghost function SizeOf(rs: seq<Record>): nat {
    if rs == [] then 0 else SizeOf(rs[..|rs| - 1]) + |rs[|rs| - 1].key| + |rs[|rs| - 1].value|
  }

  lemma SizeOneMore(rs: seq<Record>, r: Record)
    ensures SizeOf(rs + [r]) == SizeOf(rs) + |r.key| + |r.value|
  {
    assert (rs + [r])[..|rs|] == rs;
  }

  /** Worth collecting: there is an older file and at most half its bytes are live. */
  ghost predicate Worth(s: State, target: nat) {
    && |s.logs| > 1 && target > 0 && IsOldest(s.logs, s.current, target) && target in s.logs
    && 2 * SizeOf(LiveOf(s, RecordsOf(s.logs[target], target), target)) <= SizeOf(RecordsOf(s.logs[target], target))
  }

  class Store {
    var active: map<Key, Pointer>
    var logs: map<nat, Items>
    var current: nat
    var base: Key -> Option<Pointer>
    const limit: nat
    const overThreshold: map<Key, Pointer> -> bool

    constructor (s: State, overThreshold: map<Key, Pointer> -> bool)
      ensures Now() == s && this.overThreshold == overThreshold
    {
      active, base, logs, current := s.active, s.base, s.logs, s.current;
      limit, this.overThreshold := s.limit, overThreshold;
    }

    function Now(): State
      reads this
    {
      State(active, base, logs, current, limit)
    }

    /** The oldest value log other than the current one. */
    method Oldest() returns (target: nat)
      ensures IsOldest(logs, current, target)
    {
      target := 0;
      while target < current && target !in logs
        invariant 0 <= target && forall id: nat :: id < target ==> id !in logs
      {
        target := target + 1;
      }
      if target >= current {
        target := 0;
      }
    }

    /** Reads the file through and keeps the records still pointed at. */
    method ScanFile(target: nat) returns (live: seq<Record>, liveBytes: nat, totalBytes: nat)
      requires Sound(Now()) && target in logs
      ensures live == LiveOf(Now(), RecordsOf(logs[target], target), target)
      ensures liveBytes == SizeOf(live) && totalBytes == SizeOf(RecordsOf(logs[target], target))
    {
      hide ItemsBytes, ReadNext, ScanAt, IsLive, PointersReal, SizeOf;
      var file := ItemsBytes(logs[target]);
      live, liveBytes, totalBytes := [], 0, 0;
      var at := 0;
      ghost var n := 0;
      ScanBegins(Now(), target);
      ghost var rs := RecordsOf(logs[target], target);
      ScanFacts(Now(), target, n, at, live);
      NoSize(rs);
      while true
        invariant at <= |file| && ScanAt(Now(), target, n, at, live) && n <= |rs|
        invariant liveBytes == SizeOf(live) && totalBytes == SizeOf(rs[..n])
        decreases |file| - at
      {
        ScanTurn(Now(), target, n, at, live);
        var next := ReadNext(file, target, at);
        if next.None? { break; }
        var r := next.value.0;
        totalBytes := totalBytes + |r.key| + |r.value|;
        SizeOneMore(rs[..n], rs[n]);
        assert rs[..n + 1] == rs[..n] + [rs[n]];
        if IsLive(Now(), r, target) {
          SizeOneMore(live, r);
          liveBytes := liveBytes + |r.key| + |r.value|;
          live := live + [r];
        } else {
          assert live + [] == live;
        }
        at, n := next.value.1, n + 1;
        ScanFacts(Now(), target, n, at, live);
      }
      ScanDone(Now(), target, at, live);
      assert rs[..n] == rs;
    }

    /** A write first freezes the active memtable if it has grown past its threshold. */
    method MaybeFlush() returns (froze: bool)
      modifies this`active, this`base
      ensures froze == overThreshold(old(active)) && Now() == if froze then Frozen(old(Now())) else old(Now())
    {
      froze := overThreshold(active);
      if froze {
        var act, below := active, base;
        base := k => OrElse(if k in act then Some(act[k]) else None, below(k));
        active := map[];
        FrozenIs(State(act, below, logs, current, limit), Now());
      }
    }

    /** Appends a value and returns where it is; the active memtable is left alone. */
    method Append(k: Key, v: Bytes) returns (p: Pointer)
      modifies this`logs, this`current
      ensures var s' := Committed(old(Now()), k, v); Now() == Stored(old(Now()), k, v) && p == s'.active[k]
    {
      var (id, items) := Target(Now());
      p := PointerTo(Log(ItemsBytes(items), []), id, k, v);
      logs, current := logs[id := items + [(k, v)]], id;
    }

    /** Commits a batch: values and checks first, every check against the memtable as it is; then the pointers. */
    method CommitBatch(batch: seq<Request>, target: nat)
      modifies this`active, this`logs, this`current
      ensures Now() == Batched(old(Now()), target, batch)
    {
      hide ItemsBytes, Committed, Given, Drained;
      if current in logs && |ItemsBytes(logs[current])| > limit {
        logs, current := logs[current + 1 := []], current + 1;
      }
      ghost var s, seen := Now(), active;
      assert s == Rolled(old(Now()));
      var ptrs: seq<Option<Pointer>> := [];
      NothingDrained(s, seen, target, batch);
      while |ptrs| < |batch|
        invariant |ptrs| <= |batch| && active == seen
        invariant Now() == Drained(s, seen, target, batch[..|ptrs|]).(active := seen)
        invariant forall i :: 0 <= i < |ptrs| ==> ptrs[i] == Given(s, seen, target, batch, i)
      {
        var i := |ptrs|;
        NextDrained(s, seen, target, batch, i);
        ghost var d := Drained(s, seen, target, batch[..i]);
        var ptr: Option<Pointer>;
        match batch[i] {
          case Put(k, v) =>
            CommitApart(d, seen, k, v);
            var p := Append(k, v);
            ptr := Some(p);
          case Delete(_, walId) =>
            ptr := Some(Pointer(walId, MAX_UINT64, 0));
          case Rewrite(r) =>
            CommitApart(d, seen, r.key, r.value);
            if r.key in active && active[r.key].fileId > target {
              ptr := None;
            } else {
              var p := Append(r.key, r.value);
              ptr := Some(p);
            }
        }
        ptrs := ptrs + [ptr];
      }
      ghost var all := Drained(s, seen, target, batch);
      assert batch[..|batch|] == batch;
      var j := 0;
      while j < |batch|
        invariant 0 <= j <= |batch| && logs == all.logs && current == all.current
        invariant active == Drained(s, seen, target, batch[..j]).active
      {
        NextDrained(s, seen, target, batch, j);
        if ptrs[j].Some? {
          active := active[KeyOf(batch[j]) := ptrs[j].value];
        }
        j := j + 1;
      }
      DrainedRest(s, seen, target, batch);
    }

    /** One collection: nothing if there is no older file or more than half of it is live; otherwise its live
        records are rewritten, whatever freezes that causes, and the file is dropped. */
    method RunGc() returns (dropped: Option<nat>)
      requires Sound(Now())
      modifies this
      ensures Sound(Now()) && forall k :: ValueOf(Now(), k) == ValueOf(old(Now()), k)
      ensures dropped.None? ==> Now() == old(Now()) && forall id :: !Worth(Now(), id)
      ensures dropped.Some? ==> Worth(old(Now()), dropped.value)
      ensures dropped.Some? ==> dropped.value in old(logs) && dropped.value !in logs
      ensures dropped.Some? ==> forall k :: !Into(Now(), k, dropped.value)
    {
      hide ItemsBytes, ValueOf, Sound, LiveOf, Committed, Collecting, SizeOf, Frozen, Expected, LastWrite, Batched;
      ghost var before := Now();
      ghost var values := Values(before);
      if |logs| <= 1 { return None; }
      var target := Oldest();
      if target == 0 { return None; }
      var live, liveBytes, totalBytes := ScanFile(target);
      if totalBytes > 0 && 2 * liveBytes > totalBytes { return None; }
      LiveSmaller(before, RecordsOf(logs[target], target), target);
      assert Worth(before, target);
      ghost var count := |logs[target]|;
      ScanCollects(before, target, count);
      assert RecordsOf(logs[target], target)[..count] == RecordsOf(logs[target], target);
      ghost var ws: seq<Request> := [];
      var i := 0;
      assert live[0..] == live;
      while i < |live|
        invariant i <= |live| && Collecting(Run(Now(), count, live[i..]), target, values, ws)
        invariant target in logs && |logs[target]| == count
        invariant forall q :: q in ws ==> q.Rewrite?
      {
        ghost var r := Run(Now(), count, live[i..]);
        var froze := MaybeFlush();
        if froze { FreezeStep(r, target, values, ws); }
        LoneRewrite(r.(s := Now()), target, values, ws);
        CommitBatch([Rewrite(live[i])], target);
        assert live[i..][1..] == live[i + 1..];
        ws := ws + [Rewrite(live[i])];
        i := i + 1;
      }
      assert live[i..] == [];
      DropAll(Run(Now(), count, []), target, values, ws);
      logs := logs - {target};
      dropped := Some(target);
    }
  }

  /** The pointer that request `i` of a batch is given, unless it is a rewrite that the check catches. */
  ghost function Given(s: State, seen: map<Key, Pointer>, target: nat, qs: seq<Request>, i: nat): Option<Pointer>
    requires i < |qs|
  {
    if qs[i].Rewrite? && Caught(seen, target, qs[i].r) then None
    else
      var s' := One(Drained(s, seen, target, qs[..i]), seen, target, qs[i]);
      if KeyOf(qs[i]) in s'.active then Some(s'.active[KeyOf(qs[i])]) else None
  }

  function KeyOf(q: Request): Key {
    if q.Rewrite? then q.r.key else q.k
  }

  lemma NothingDrained(s: State, seen: map<Key, Pointer>, target: nat, qs: seq<Request>)
    ensures Drained(s, seen, target, qs[..0]) == s
  {
  }

  /** What one more request does, told by the pointer it is given. */
  lemma NextDrained(s: State, seen: map<Key, Pointer>, target: nat, qs: seq<Request>, i: nat)
    requires i < |qs|
    ensures var d := Drained(s, seen, target, qs[..i]); var d' := Drained(s, seen, target, qs[..i + 1]);
            && d' == One(d, seen, target, qs[i])
            && d'.active == (if Given(s, seen, target, qs, i).Some?
                             then d.active[KeyOf(qs[i]) := Given(s, seen, target, qs, i).value] else d.active)
            && Given(s, seen, target, qs, i)
                 == (if qs[i].Delete? then Some(Pointer(qs[i].walId, MAX_UINT64, 0))
                     else if qs[i].Rewrite? && Caught(seen, target, qs[i].r) then None
                     else Some(Committed(d, KeyOf(qs[i]),
                                         if qs[i].Put? then qs[i].v else qs[i].r.value).active[KeyOf(qs[i])]))
  {
    hide Drained, ItemsBytes;
    assert qs[..i + 1][..i] == qs[..i];
    assert Drained(s, seen, target, qs[..i + 1]) == One(Drained(s, seen, target, qs[..i]), seen, target, qs[i]) by {
      DrainedFolds(s, seen, target, qs[..i + 1]);
    }
  }

  lemma DrainedFolds(s: State, seen: map<Key, Pointer>, target: nat, qs: seq<Request>)
    requires qs != []
    ensures Drained(s, seen, target, qs) == One(Drained(s, seen, target, qs[..|qs| - 1]), seen, target, qs[|qs| - 1])
  {
  }

  /** Where a value goes does not depend on the memtable. */
  lemma CommitApart(s: State, seen: map<Key, Pointer>, k: Key, v: Bytes)
    ensures Committed(s.(active := seen), k, v).active[k] == Committed(s, k, v).active[k]
    ensures Stored(s.(active := seen), k, v) == Committed(s, k, v).(active := seen)
  {
    hide ItemsBytes;
  }

  lemma {:induction false} DrainedRest(s: State, seen: map<Key, Pointer>, target: nat, qs: seq<Request>)
    ensures Drained(s, seen, target, qs).base == s.base && Drained(s, seen, target, qs).limit == s.limit
  {
    hide ItemsBytes;
    if qs != [] { DrainedRest(s, seen, target, qs[..|qs| - 1]); }
  }

  /** A rewrite alone in its batch, when no client has written. */
  lemma LoneRewrite(r: Run, target: nat, values: Key -> Option<Bytes>, ws: seq<Request>)
    requires Collecting(r, target, values, ws) && r.todo != [] && forall q :: q in ws ==> q.Rewrite?
    ensures var s' := Batched(r.s, target, [Rewrite(r.todo[0])]);
            && Collecting(Run(s', r.n, r.todo[1..]), target, values, ws + [Rewrite(r.todo[0])])
            && target in s'.logs && s'.logs[target] == r.s.logs[target]
  {
    NextFits(r, target, values, ws);
    BatchKeepsFile(r, target, values, ws, [Rewrite(r.todo[0])]);
    hide Collecting, Batched, Caught, LastWrite;
    var qs := [Rewrite(r.todo[0])];
    OneRewrite(r, target, values, ws, []);
    assert [] + qs == qs && qs[..0] == [];
    NoMore(ws);
    NoWrites(ws, r.todo[0].key);
    assert Harmless(r.s.active, target, ws, qs, 0);
    BatchStep(r, target, values, ws, qs);
  }

  lemma BatchKeepsFile(r: Run, target: nat, values: Key -> Option<Bytes>, ws: seq<Request>, qs: seq<Request>)
    requires Collecting(r, target, values, ws) && RequestsOk(qs)
    ensures var s' := Batched(r.s, target, qs); target in s'.logs && s'.logs[target] == r.s.logs[target]
  {
    hide Sound, ValueOf, Visible, LastWrite, Drained, Rolled;
    RolledSame(r.s, target, []);
    RolledSound(r.s);
    DrainedSound(Rolled(r.s), r.s.active, target, qs);
  }

  lemma {:induction false} NoWrites(ws: seq<Request>, k: Key)
    requires forall q :: q in ws ==> q.Rewrite?
    ensures LastWrite(ws, k).None?
  {
    if ws != [] {
      assert ws[|ws| - 1] in ws;
      NoWrites(ws[..|ws| - 1], k);
    }
  }

  lemma {:induction false} LiveSmaller(s: State, rs: seq<Record>, target: nat)
    ensures SizeOf(LiveOf(s, rs, target)) <= SizeOf(rs)
  {
    hide IsLive;
    if rs != [] {
      var front, r := rs[..|rs| - 1], rs[|rs| - 1];
      LiveSmaller(s, front, target);
      SizeOneMore(LiveOf(s, front, target), r);
      assert LiveOf(s, front, target) + [] == LiveOf(s, front, target);
    }
  }

  lemma NoSize(rs: seq<Record>)
    ensures SizeOf([]) == 0 && SizeOf(rs[..0]) == 0
  {
  }

  lemma ScanFacts(s: State, target: nat, n: nat, at: nat, live: seq<Record>)
    requires ScanAt(s, target, n, at, live)
    ensures n <= |s.logs[target]| && at <= |ItemsBytes(s.logs[target])|
  {
    hide ItemsBytes, LiveOf;
    var items := s.logs[target];
    if n < |items| {
      ItemThere(items, n);
    } else {
      assert items[..n] == items;
    }
  }

  lemma FrozenIs(s: State, t: State)
    requires t.active == map[] && t.logs == s.logs && t.current == s.current && t.limit == s.limit
    requires t.base == Frozen(s).base
    ensures t == Frozen(s)
  {
  }

  lemma DropAll(r: Run, target: nat, values: Key -> Option<Bytes>, ws: seq<Request>)
    requires Collecting(r, target, values, ws) && r.todo == [] && forall q :: q in ws ==> q.Rewrite?
    requires r.n == |r.s.logs[target]|
    ensures var s' := r.s.(logs := r.s.logs - {target});
            Sound(s') && (forall k :: ValueOf(s', k) == values(k)) && forall k :: !Into(s', k, target)
  {
    hide ItemsBytes, ValueOf, Pending, PointerReal, AllFit, Into, LastWrite;
    var s' := r.s.(logs := r.s.logs - {target});
    forall k ensures ValueOf(s', k) == values(k) && !Into(s', k, target) && PointerReal(s', k) {
      DropFile(r, target, values, ws, k);
      NoWrites(ws, k);
    }
  }
}
