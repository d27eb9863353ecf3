/** Recovery and the collector: a rewrite is not logged, and the file it came from is dropped. */
module GcCrash {
  import opened Keys
  import opened Codec
  import opened Vlog
  import opened Batches
  import opened Gc
  import Crash
  import Wal

  // ------------------------------------------------------------------ the log

  /** What a request adds to the log: client writes only. */
  ghost function LoggedOne(log: seq<Wal.Record>, s: State, q: Request): seq<Wal.Record> {
    match q
    case Put(k, v) => log + [Wal.Record(k, Committed(s, k, v).active[k])]
    case Delete(k, _) => log + [Wal.DeleteRecord(k)]
    case Rewrite(_) => log
  }

  ghost function LoggedAll(log: seq<Wal.Record>, s: State, seen: map<Key, Pointer>, target: nat, qs: seq<Request>):
    seq<Wal.Record>
  {
    if qs == [] then log
    else
      var n := |qs| - 1;
      LoggedOne(LoggedAll(log, s, seen, target, qs[..n]), Drained(s, seen, target, qs[..n]), qs[n])
  }

  /** A freeze starts a new log. */
  ghost function LogAfter(log: seq<Wal.Record>, r: Run, target: nat, e: Event): seq<Wal.Record> {
    match e
    case Read => log
    case Freeze => []
    case Batch(qs) => LoggedAll(log, Rolled(r.s), r.s.active, target, qs)
  }

  ghost function LogAfterAll(log: seq<Wal.Record>, r: Run, target: nat, es: seq<Event>): seq<Wal.Record> {
    if es == [] then log
    else
      var front := es[..|es| - 1];
      LogAfter(LogAfterAll(log, r, target, front), AfterAll(r, target, front), target, es[|es| - 1])
  }

  /** The store as the entries of a log make it over what was frozen. */
  ghost function Reloaded(s: State, entries: seq<Wal.Entry>, walId: nat): State {
    s.(active := Crash.Loaded(entries, walId))
  }

  ghost function Recovered(s: State, log: seq<Wal.Record>, walId: nat): State {
    Reloaded(s, Wal.EntriesOf(log), walId)
  }

  /** Lengths the log can carry. */
  ghost predicate Loggable(q: Request) {
    q.Put? ==> |q.v| < Wal.TOMBSTONE_MARK
  }

  // --------------------------------------------- recovery follows the requests

  lemma LoadedMore(log: seq<Wal.Record>, r: Wal.Record, walId: nat)
    ensures Crash.Loaded(Wal.EntriesOf(log + [r]), walId)
         == Crash.Loaded(Wal.EntriesOf(log), walId)[r.key := if r.ptr.length == Wal.TOMBSTONE_MARK
                                                             then Pointer(walId, MAX_UINT64, 0) else r.ptr]
  {
    hide Wal.EntriesOf;
    Wal.EntriesAppend(log, r);
    assert (Wal.EntriesOf(log) + [Wal.EntryOf(r)])[..|log|] == Wal.EntriesOf(log);
  }

  /** One request, seen from recovery: a rewrite leaves its value in a file and nothing that names it. */
  function RecoveredOne(rec: State, seen: map<Key, Pointer>, target: nat, q: Request, walId: nat): State {
    match q
    case Put(k, v) => Committed(rec, k, v)
    case Delete(k, _) => Deleted(rec, k, walId)
    case Rewrite(r) => if Caught(seen, target, r) then rec else Stored(rec, r.key, r.value)
  }

  lemma RecoverOne(s: State, log: seq<Wal.Record>, seen: map<Key, Pointer>, target: nat, q: Request, walId: nat)
    requires Loggable(q)
    ensures Recovered(One(s, seen, target, q), LoggedOne(log, s, q), walId)
         == RecoveredOne(Recovered(s, log, walId), seen, target, q, walId)
  {
    hide ItemsBytes, Crash.Loaded, Wal.EntriesOf, Caught;
    match q
    case Put(k, v) => LoadedMore(log, Wal.Record(k, Committed(s, k, v).active[k]), walId);
    case Delete(k, _) => LoadedMore(log, Wal.DeleteRecord(k), walId);
    case Rewrite(_) =>
  }

  /** Client writes set their keys for recovery too; rewrites set nothing. */
  lemma RecoverOneShows(rec: State, seen: map<Key, Pointer>, target: nat, q: Request, walId: nat, k: Key)
    requires Sound(rec) && RequestOk(q)
    ensures var rec', w := RecoveredOne(rec, seen, target, q, walId), LastWrite([q], k);
            && ValueOf(rec', k) == (if w.Some? then w.value else ValueOf(rec, k))
            && (if w.None? then Visible(rec', k) == Visible(rec, k)
                else target < rec.current ==> !Into(rec', k, target))
  {
    hide Committed, Deleted, Stored, ValueOf, Visible, Sound, ItemFits, Caught, Into;
    OneRequest(seen, target, q, k);
    match q
    case Put(k', v) => CommitShows(rec, k', v, target, k);
    case Delete(k', _) => DeleteShows(rec, k', walId, target, k);
    case Rewrite(r) => StoredSame(rec, r.key, r.value, k);
  }

  lemma RecoverOneSound(rec: State, seen: map<Key, Pointer>, target: nat, q: Request, walId: nat)
    requires Sound(rec) && RequestOk(q)
    ensures Sound(RecoveredOne(rec, seen, target, q, walId))
    ensures rec.current <= RecoveredOne(rec, seen, target, q, walId).current
  {
    hide Sound, ItemFits, ItemsBytes;
    match q
    case Put(k, v) => CommitSound(rec, k, v);
    case Delete(k, _) => DeleteSound(rec, k, walId);
    case Rewrite(r) => StoredSound(rec, r.key, r.value);
  }

  /** After a batch recovery has for every key what the last client write gave, and otherwise what it had. */
  lemma {:induction false} RecoverAll(s: State, log: seq<Wal.Record>, seen: map<Key, Pointer>, target: nat,
                                      qs: seq<Request>, walId: nat)
    requires Sound(Recovered(s, log, walId)) && RequestsOk(qs) && forall q :: q in qs ==> Loggable(q)
    ensures var rec := Recovered(s, log, walId);
            var rec' := Recovered(Drained(s, seen, target, qs), LoggedAll(log, s, seen, target, qs), walId);
            && Sound(rec') && rec.current <= rec'.current
            && forall k :: RecoverShows(rec, rec', target, qs, k)
  {
    hide Sound, One, LoggedOne, RequestOk, ValueOf, Visible, Recovered, RecoveredOne, Into, LastWrite;
    var rec := Recovered(s, log, walId);
    if qs == [] {
      forall k ensures RecoverShows(rec, rec, target, [], k) { NoneWritten(k); }
    } else {
      var n := |qs| - 1;
      var front, q := qs[..n], qs[n];
      assert q in qs && front + [q] == qs;
      RecoverAll(s, log, seen, target, front, walId);
      var d, l := Drained(s, seen, target, front), LoggedAll(log, s, seen, target, front);
      RecoverOne(d, l, seen, target, q, walId);
      RecoverOneSound(Recovered(d, l, walId), seen, target, q, walId);
      var last := RecoveredOne(Recovered(d, l, walId), seen, target, q, walId);
      forall k ensures RecoverShows(rec, last, target, qs, k) {
        assert RecoverShows(rec, Recovered(d, l, walId), target, front, k);
        RecoverOneShows(Recovered(d, l, walId), seen, target, q, walId, k);
        LastWriteConcat(front, [q], k);
        SameInto(last, Recovered(d, l, walId), k, target);
      }
    }
  }

  lemma NoneWritten(k: Key)
    ensures LastWrite([], k).None?
  {
  }

  lemma CurrentSame(s: State, log: seq<Wal.Record>, walId: nat)
    ensures Recovered(s, log, walId).current == s.current
  {
  }

  ghost predicate RecoverShows(rec: State, rec': State, target: nat, qs: seq<Request>, k: Key) {
    var w := LastWrite(qs, k);
    && ValueOf(rec', k) == (if w.Some? then w.value else ValueOf(rec, k))
    && (if w.None? then Visible(rec', k) == Visible(rec, k) else target < rec.current ==> !Into(rec', k, target))
  }

  // ---------------------------------------------------------------- over runs

  /** The requests since the last freeze. */
  ghost function SinceFreeze(es: seq<Event>): seq<Request> {
    if es == [] then []
    else
      match es[|es| - 1]
      case Read => SinceFreeze(es[..|es| - 1])
      case Freeze => []
      case Batch(qs) => SinceFreeze(es[..|es| - 1]) + qs
  }

  ghost predicate RewrittenIn(qs: seq<Request>, k: Key) {
    exists q :: q in qs && q.Rewrite? && q.r.key == k
  }

  /** What recovery would show: every read as the client writes make it, and pointers into the target file for
      exactly the keys no client has written that still point there, or were rewritten since the last freeze. */
  ghost predicate Recoverable(s: State, rec: State, target: nat, values: Key -> Option<Bytes>, ws: seq<Request>,
                              recent: seq<Request>) {
    && Sound(rec) && rec.current == s.current && target < s.current
    && (forall k :: ValueOf(rec, k) == Expected(values, ws, k))
    && forall k :: Into(rec, k, target) <==> LastWrite(ws, k).None? && (Into(s, k, target) || RewrittenIn(recent, k))
  }

  /** At the start recovery would show what reads do. */
  ghost predicate DurableStart(s: State, log: seq<Wal.Record>, walId: nat) {
    forall k :: Visible(Recovered(s, log, walId), k) == Visible(s, k)
  }

  lemma StartRecoverable(s: State, log: seq<Wal.Record>, walId: nat, target: nat)
    requires Sound(s) && target in s.logs && target < s.current && DurableStart(s, log, walId)
    ensures Recoverable(s, Recovered(s, log, walId), target, Values(s), [], [])
  {
    hide ItemsBytes, ReadAt, Crash.Loaded, Wal.EntriesOf, AllFit, IsRecord;
    var rec := Recovered(s, log, walId);
    forall k ensures PointerReal(rec, k) && ValueOf(rec, k) == ValueOf(s, k)
                     && Into(rec, k, target) == Into(s, k, target) {
      RealPointer(s, k);
    }
  }

  lemma FreezeRecoverable(r: Run, rec: State, target: nat, values: Key -> Option<Bytes>, ws: seq<Request>, walId: nat)
    requires Collecting(r, target, values, ws)
    ensures Recoverable(Frozen(r.s), Recovered(Frozen(r.s), [], walId), target, values, ws, [])
  {
    hide Sound, ValueOf, Visible, LastWrite;
    assert Wal.EntriesOf([]) == [];
    var s' := Frozen(r.s);
    assert Recovered(s', [], walId) == s';
    FrozenSound(r.s, target);
    forall k ensures Visible(s', k) == Visible(r.s, k) && ValueOf(s', k) == ValueOf(r.s, k) {
      FrozenSame(r.s, k);
    }
    forall k ensures Into(s', k, target) ==> LastWrite(ws, k).None? {
      assert Into(s', k, target) == Into(r.s, k, target);
    }
  }

  lemma BatchRecoverable(r: Run, log: seq<Wal.Record>, target: nat, values: Key -> Option<Bytes>, ws: seq<Request>,
                         recent: seq<Request>, qs: seq<Request>, walId: nat)
    requires Collecting(r, target, values, ws) && Enabled(r, Batch(qs)) && forall q :: q in qs ==> Loggable(q)
    requires Recoverable(r.s, Recovered(r.s, log, walId), target, values, ws, recent)
    ensures var s' := Batched(r.s, target, qs);
            Recoverable(s', Recovered(s', LoggedAll(log, Rolled(r.s), r.s.active, target, qs), walId), target, values,
                        ws + qs, recent + qs)
  {
    hide Collecting, Sound, ValueOf, Visible, LastWrite, Recovered, Drained, LoggedAll, Into, RewrittenIn, Rolled,
         RequestOk, Rewrites, Loggable;
    var rolled, s' := Rolled(r.s), Batched(r.s, target, qs);
    var rec := Recovered(r.s, log, walId);
    var rec' := Recovered(s', LoggedAll(log, rolled, r.s.active, target, qs), walId);
    RolledRecovers(r.s, log, walId, target, rec);
    RecoverAll(rolled, log, r.s.active, target, qs, walId);
    CurrentSame(s', LoggedAll(log, rolled, r.s.active, target, qs), walId);
    BatchGrows(r, target, values, ws, qs);
    forall k ensures ValueOf(rec', k) == Expected(values, ws + qs, k)
                  && (Into(rec', k, target) <==>
                      LastWrite(ws + qs, k).None? && (Into(s', k, target) || RewrittenIn(recent + qs, k))) {
      assert RecoverShows(Recovered(rolled, log, walId), rec', target, qs, k);
      RolledSameRec(r.s, log, walId, target, k);
      LastWriteConcat(ws, qs, k);
      MoreRewritten(recent, qs, k);
      if LastWrite(ws + qs, k).None? { BatchMoves(r, target, values, ws, qs, k); }
      SameInto(Recovered(rolled, log, walId), rec, k, target);
      SameInto(rec', Recovered(rolled, log, walId), k, target);
    }
  }

  lemma SameInto(a: State, b: State, k: Key, target: nat)
    ensures Visible(a, k) == Visible(b, k) ==> Into(a, k, target) == Into(b, k, target)
  {
    hide Visible;
  }

  lemma MoreRewritten(a: seq<Request>, b: seq<Request>, k: Key)
    ensures RewrittenIn(a + b, k) <==> RewrittenIn(a, k) || RewrittenIn(b, k)
  {
  }

  lemma RolledRecovers(s: State, log: seq<Wal.Record>, walId: nat, target: nat, rec: State)
    requires rec == Recovered(s, log, walId) && Sound(rec)
    ensures Recovered(Rolled(s), log, walId) == Rolled(rec) && Sound(Rolled(rec)) && s.current <= Rolled(s).current
  {
    hide ItemsBytes, Crash.Loaded, Wal.EntriesOf, Sound;
    RolledSound(rec);
  }

  lemma RolledSameRec(s: State, log: seq<Wal.Record>, walId: nat, target: nat, k: Key)
    requires Sound(Recovered(s, log, walId))
    ensures var rec, rolled := Recovered(s, log, walId), Recovered(Rolled(s), log, walId);
            Visible(rolled, k) == Visible(rec, k) && ValueOf(rolled, k) == ValueOf(rec, k)
            && rec.current <= rolled.current
  {
    hide Sound, Visible, ValueOf, Recovered;
    RolledRecovers(s, log, walId, target, Recovered(s, log, walId));
    RolledSame(Recovered(s, log, walId), target, k);
  }

  lemma BatchGrows(r: Run, target: nat, values: Key -> Option<Bytes>, ws: seq<Request>, qs: seq<Request>)
    requires Collecting(r, target, values, ws) && RequestsOk(qs)
    ensures Batched(r.s, target, qs).current >= Rolled(r.s).current >= r.s.current > target
  {
    hide Sound, ValueOf, Visible, LastWrite, Drained, Rolled;
    RolledSame(r.s, target, []);
    RolledSound(r.s);
    DrainedSound(Rolled(r.s), r.s.active, target, qs);
  }

  /** A key no client has written leaves the target file in a batch exactly when the batch rewrites it. */
  lemma BatchMoves(r: Run, target: nat, values: Key -> Option<Bytes>, ws: seq<Request>, qs: seq<Request>, k: Key)
    requires Collecting(r, target, values, ws) && Enabled(r, Batch(qs)) && LastWrite(ws + qs, k).None?
    ensures Into(r.s, k, target) <==> Into(Batched(r.s, target, qs), k, target) || RewrittenIn(qs, k)
  {
    hide ValueOf, Visible, LastWrite, Drained, Rolled, Rewrites, RequestOk, PointersReal, ItemPointer, ItemsBytes,
         LastSet;
    LastWriteConcat(ws, qs, k);
    RolledSame(r.s, target, k);
    RolledSound(r.s);
    DrainedShows(Rolled(r.s), r.s.active, target, qs, k);
    if RewrittenIn(qs, k) {
      var q :| q in qs && q.Rewrite? && q.r.key == k;
      RewriteIn(qs, q.r);
      assert q.r in r.todo && Pending(r.s, values, ws, q.r);
      TodoInto(r, target, values, ws, q.r);
    } else {
      SetOrNot(r.s.active, target, qs, k);
    }
  }

  lemma TodoInto(r: Run, target: nat, values: Key -> Option<Bytes>, ws: seq<Request>, x: Record)
    requires Collecting(r, target, values, ws) && x in r.todo
    ensures x.ptr.fileId == target
  {
    hide ValueOf, Visible, LastWrite, Sound;
    var i :| 0 <= i < r.n && RecordsOf(r.s.logs[target], target)[..r.n][i] == x;
  }

  /** A crash at any point of a harmless run, before the file is dropped: recovery loses nothing. */
  lemma {:induction false} RunRecoverable(s: State, log: seq<Wal.Record>, walId: nat, target: nat, es: seq<Event>,
                                          n: nat)
    requires Sound(s) && target in s.logs && target < s.current && DurableStart(s, log, walId) && n <= |es|
    requires RunOk(Run(s, 0, []), target, es) && AllHarmless(Run(s, 0, []), target, es)
    requires forall q :: q in Requests(es) ==> Loggable(q)
    ensures var now, front := AfterAll(Run(s, 0, []), target, es[..n]), es[..n];
            Recoverable(now.s, Recovered(now.s, LogAfterAll(log, Run(s, 0, []), target, front), walId), target,
                        Values(s), Requests(front), SinceFreeze(front))
  {
    hide Sound, Collecting, ValueOf, Visible, Recovered, Recoverable, DurableStart, RunOk, AllHarmless, Loggable,
         Scanned, Batched, Enabled, LoggedAll, Frozen;
    var r0, values := Run(s, 0, []), Values(s);
    if n == 0 {
      assert es[..0] == [];
      StartRecoverable(s, log, walId, target);
    } else {
      var front, e := es[..n - 1], es[n - 1];
      assert es[..n] == front + [e] && es[..n][..n - 1] == front;
      RunRecoverable(s, log, walId, target, es, n - 1);
      RunCollectsFromStart(s, target, es, n - 1);
      OneMoreEvent(r0, target, front, e);
      var now := AfterAll(r0, target, front);
      match e
      case Read => NoMore(Requests(front)); ScannedSame(now, target);
      case Freeze => NoMore(Requests(front)); FreezeRecoverable(now, now.s, target, values, Requests(front), walId);
      case Batch(qs) =>
        EnabledThere(r0, target, es, n - 1);
        RequestsIn(es, n - 1);
        BatchRecoverable(now, LogAfterAll(log, r0, target, front), target, values, Requests(front),
                         SinceFreeze(front), qs, walId);
    }
  }

  lemma ScannedSame(r: Run, target: nat)
    ensures Scanned(r, target).s == r.s
  {
  }

  lemma EnabledThere(r: Run, target: nat, es: seq<Event>, m: nat)
    requires RunOk(r, target, es) && m < |es|
    ensures Enabled(AfterAll(r, target, es[..m]), es[m])
  {
    hide Enabled;
    assert EnabledAt(r, target, es, m);
  }

  lemma {:induction false} RequestsIn(es: seq<Event>, m: nat)
    requires m < |es| && es[m].Batch?
    ensures forall q :: q in es[m].qs ==> q in Requests(es)
  {
    var n := |es| - 1;
    if m < n { RequestsIn(es[..n], m); }
  }

  lemma RunCollectsFromStart(s: State, target: nat, es: seq<Event>, n: nat)
    requires Sound(s) && target in s.logs && target < s.current && n <= |es|
    requires RunOk(Run(s, 0, []), target, es) && AllHarmless(Run(s, 0, []), target, es)
    ensures Collecting(AfterAll(Run(s, 0, []), target, es[..n]), target, Values(s), Requests(es[..n]))
  {
    hide Sound, Collecting, ValueOf, RunOk, HarmlessAt;
    CollectStart(s, target);
    RunCollects(Run(s, 0, []), target, Values(s), es, n);
  }

  // --------------------------------------------------------- after the file is gone

  lemma ReadsSomething(s: State, k: Key)
    requires Sound(s) && Visible(s, k).Some?
    ensures ValueOf(s, k).Some?
  {
    hide ItemsBytes, ReadAt, PointersReal;
    RealPointer(s, k);
    var p := Visible(s, k).value;
    var i: nat :| IsRecordAt(s.logs[p.fileId], p.fileId, k, p, i);
    RecordReads(s.logs[p.fileId], p.fileId, i);
  }

  lemma DroppedShows(rec: State, target: nat, k: Key)
    requires Sound(rec)
    ensures ValueOf(rec.(logs := rec.logs - {target}), k) == if Into(rec, k, target) then None else ValueOf(rec, k)
  {
    hide ItemsBytes, ReadAt;
  }

  /** A collection run through from a durable start: every record read and rewritten, and no harm done. */
  ghost predicate Collected(s: State, log: seq<Wal.Record>, walId: nat, target: nat, es: seq<Event>) {
    var now := AfterAll(Run(s, 0, []), target, es);
    && Sound(s) && target in s.logs && target < s.current && DurableStart(s, log, walId)
    && RunOk(Run(s, 0, []), target, es) && AllHarmless(Run(s, 0, []), target, es)
    && (forall q :: q in Requests(es) ==> Loggable(q))
    && target in now.s.logs && now.todo == [] && now.n == |now.s.logs[target]|
  }

  /** The store after it with the target file gone. */
  ghost function DroppedStore(s: State, target: nat, es: seq<Event>): State {
    var now := AfterAll(Run(s, 0, []), target, es).s;
    now.(logs := now.logs - {target})
  }

  /** What a crash then leaves of a key: nothing, if it was rewritten since the last freeze and no client has
      written it; otherwise what reads return. */
  lemma KeyAfterDrop(s: State, log: seq<Wal.Record>, walId: nat, target: nat, es: seq<Event>, k: Key)
    requires Collected(s, log, walId, target, es)
    ensures var values, ws := Values(s), Requests(es);
            var lost := RewrittenIn(SinceFreeze(es), k) && LastWrite(ws, k).None?;
            && ValueOf(Recovered(DroppedStore(s, target, es), LogAfterAll(log, Run(s, 0, []), target, es), walId), k)
                 == (if lost then None else Expected(values, ws, k))
            && (lost ==> Expected(values, ws, k).Some?)
  {
    hide Sound, Collecting, ValueOf, Visible, RunOk, AllHarmless, Loggable, DurableStart, Crash.Loaded, Wal.EntriesOf,
         LogAfterAll, AfterAll, Requests, SinceFreeze, RewrittenIn, LastWrite;
    var now, values := AfterAll(Run(s, 0, []), target, es), Values(s);
    var rec := Recovered(now.s, LogAfterAll(log, Run(s, 0, []), target, es), walId);
    assert es[..|es|] == es;
    RunCollectsFromStart(s, target, es, |es|);
    RunRecoverable(s, log, walId, target, es, |es|);
    AllMoved(now, target, values, Requests(es), k);
    DroppedShows(rec, target, k);
    if Into(rec, k, target) { ReadsSomething(rec, k); }
  }

  /** A crash after a whole collection: recovery from the log's bytes reads every value if and only if every key
      rewritten since the last freeze has been written by a client since the collection began. */
  lemma CollectionSurvives(s: State, log: seq<Wal.Record>, walId: nat, target: nat, es: seq<Event>)
    requires Collected(s, log, walId, target, es)
    requires forall r :: r in LogAfterAll(log, Run(s, 0, []), target, es) ==> Wal.Readable(r)
    ensures var bytes := Wal.LogBytes(LogAfterAll(log, Run(s, 0, []), target, es));
            var rec := Reloaded(DroppedStore(s, target, es), Wal.Replay(bytes).entries, walId);
            (forall k :: ValueOf(rec, k) == Expected(Values(s), Requests(es), k)) <==>
            (forall k :: RewrittenIn(SinceFreeze(es), k) ==> LastWrite(Requests(es), k).Some?)
  {
    hide ValueOf, Collected, Crash.Loaded, Wal.EntriesOf, Wal.Replay, Wal.LogBytes, Wal.Readable, LogAfterAll,
         Requests, SinceFreeze, RewrittenIn, LastWrite, DroppedStore, Expected;
    var log' := LogAfterAll(log, Run(s, 0, []), target, es);
    Wal.ReplayIntact(log');
    var rec := Recovered(DroppedStore(s, target, es), log', walId);
    forall k ensures ValueOf(rec, k) == Expected(Values(s), Requests(es), k)
                <==> (RewrittenIn(SinceFreeze(es), k) ==> LastWrite(Requests(es), k).Some?) {
      KeyAfterDrop(s, log, walId, target, es, k);
    }
  }

  lemma AllMoved(r: Run, target: nat, values: Key -> Option<Bytes>, ws: seq<Request>, k: Key)
    requires Collecting(r, target, values, ws) && r.todo == [] && r.n == |r.s.logs[target]|
    ensures !Into(r.s, k, target)
  {
    hide ItemsBytes, ValueOf, ItemPointer, LastWrite, Sound;
  }

  // ------------------------------------------------------------- at an input

  lemma SmallDurable(k: Key, v: Bytes, walId: nat)
    requires ItemFits((k, v)) && |v| < Wal.TOMBSTONE_MARK
    ensures DurableStart(SmallStore(k, v), [Wal.Record(k, ItemPointer([(k, v)], 1, 0))], walId)
  {
    hide ItemsBytes, Crash.Loaded;
    var r := Wal.Record(k, ItemPointer([(k, v)], 1, 0));
    LoadedMore([], r, walId);
    assert [] + [r] == [r] && Wal.EntriesOf([]) == [];
    NothingLoaded(walId);
  }

  lemma NothingLoaded(walId: nat)
    ensures Crash.Loaded([], walId) == map[]
  {
  }

  lemma SmallHarmless(r: Run, x: Record)
    requires After(r, 1, Read).todo == [x]
    ensures AllHarmless(r, 1, [Read, Batch([Rewrite(x)])])
  {
    hide Caught, Scanned, Batched;
    var es := [Read, Batch([Rewrite(x)])];
    forall n | 0 <= n < |es| ensures HarmlessAt(r, 1, es, n) {
      assert es[..1] == [Read] && [Read][..0] == [] && [Rewrite(x)][..0] == [];
    }
  }

  /** A store of one key, its put in the log. Reading and rewriting the one record is harmless, yet a crash after
      the file is dropped loses the value. */
  lemma CollectionLoses(k: Key, v: Bytes, walId: nat)
    requires ItemFits((k, v)) && |v| < Wal.TOMBSTONE_MARK
    ensures var s, p := SmallStore(k, v), ItemPointer([(k, v)], 1, 0);
            var log, es := [Wal.Record(k, p)], [Read, Batch([Rewrite(Record(k, v, p))])];
            && Collected(s, log, walId, 1, es) && ValueOf(s, k) == Some(v)
            && ValueOf(Recovered(DroppedStore(s, 1, es), LogAfterAll(log, Run(s, 0, []), 1, es), walId), k) == None
  {
    hide ValueOf, ItemPointer, Recovered, SmallStore, LogAfterAll, DroppedStore, Collected, Expected, LastWrite,
         SinceFreeze, Requests, RewrittenIn;
    var s, p := SmallStore(k, v), ItemPointer([(k, v)], 1, 0);
    var x := Record(k, v, p);
    SmallCollected(k, v, walId);
    KeyAfterDrop(s, [Wal.Record(k, p)], walId, 1, [Read, Batch([Rewrite(x)])], k);
    OnlyRewritten(x);
  }

  lemma OnlyRewritten(x: Record)
    ensures var es := [Read, Batch([Rewrite(x)])];
            RewrittenIn(SinceFreeze(es), x.key) && LastWrite(Requests(es), x.key).None?
  {
    var es := [Read, Batch([Rewrite(x)])];
    assert es[..1] == [Read] && [Read][..0] == [];
    assert SinceFreeze(es) == [Rewrite(x)] && Requests(es) == [Rewrite(x)];
    assert Rewrite(x) in SinceFreeze(es);
    OneRequest(map[], 1, Rewrite(x), x.key);
  }

  lemma SmallCollected(k: Key, v: Bytes, walId: nat)
    requires ItemFits((k, v)) && |v| < Wal.TOMBSTONE_MARK
    ensures var s, p := SmallStore(k, v), ItemPointer([(k, v)], 1, 0);
            Collected(s, [Wal.Record(k, p)], walId, 1, [Read, Batch([Rewrite(Record(k, v, p))])])
            && ValueOf(s, k) == Some(v)
  {
    hide Collecting, ValueOf, RunOk, AllHarmless, DurableStart, ItemPointer, Batched, Scanned, Rewrites, AfterAll;
    var s, p := SmallStore(k, v), ItemPointer([(k, v)], 1, 0);
    var x := Record(k, v, p);
    var es, r0, r1 := [Read, Batch([Rewrite(x)])], Run(s, 0, []), Run(s, 1, [x]);
    SmallStart(k, v);
    SmallDurable(k, v, walId);
    SmallHarmless(r0, x);
    OneRewrite(r1, 1, Values(s), [], []);
    assert [] + [Rewrite(x)] == [Rewrite(x)];
    TwoEvents(r0, 1, Read, Batch([Rewrite(x)]));
    BatchKeepsFile(r1, 1, Values(s), [], [Rewrite(x)]);
    SmallValue(k, v);
    assert es[..1] == [Read] && [Read][..0] == [] && Requests(es) == [Rewrite(x)];
  }

  lemma SmallValue(k: Key, v: Bytes)
    requires ItemFits((k, v))
    ensures ValueOf(SmallStore(k, v), k) == Some(v)
  {
    hide ItemsBytes, ReadAt, ItemPointer;
    SmallStart(k, v);
    RecordReads([(k, v)], 1, 0);
  }
}
