/** The commit section and what a crash at any of its steps leaves to recover. */
module Crash {
  import opened Keys
  import opened Codec
  import Wal
  import Vlog

  /** A write: a put of a value, or a delete. */
  datatype Request = Request(key: Key, value: Option<Bytes>, sync: bool)

  /** A request with the pointer its value was given. */
  datatype Op = Op(key: Key, value: Option<Bytes>, ptr: Pointer)

  datatype Phase =
    | Idle
    | Values(batch: seq<Request>, ptrs: seq<Pointer>)            // appending values, writing full buffers out
    | Records(batch: seq<Request>, ptrs: seq<Pointer>, i: nat)   // appending log records
    | Syncing(batch: seq<Request>, ptrs: seq<Pointer>)           // writing the log buffer out
    | Publishing(batch: seq<Request>, ptrs: seq<Pointer>)        // inserting into the memtable

  /** `logged` and `queued` are the operations whose records are in the log file and in its buffer. */
  datatype State = State(wal: Vlog.Log, vlogs: map<nat, Vlog.Log>, current: nat, walId: nat, mem: map<Key, Pointer>,
                         phase: Phase, logged: seq<Op>, queued: seq<Op>, published: nat, limit: nat)

  datatype Step = Begin(batch: seq<Request>) | Value | WriteOut | SyncValues | LogRecord | LogDone | SyncLog | Publish

  // ------------------------------------------------------------- operations

  /** Keys up to 64 MiB and values short of the tombstone mark: what the log can carry. */
  ghost predicate Loggable(r: Request) {
    |r.key| <= Wal.MAX_FIELD_SIZE && (r.value.Some? ==> |r.value.value| < Wal.TOMBSTONE_MARK)
  }

  predicate NeedsSync(batch: seq<Request>) {
    exists i :: 0 <= i < |batch| && batch[i].sync
  }

  function OpOf(r: Request, p: Pointer): Op {
    Op(r.key, r.value, p)
  }

  function RecordOf(op: Op): Wal.Record {
    if op.value.Some? then Wal.Record(op.key, op.ptr) else Wal.DeleteRecord(op.key)
  }

  function RecordsOf(ops: seq<Op>): (rs: seq<Wal.Record>)
    ensures |rs| == |ops| && forall i :: 0 <= i < |ops| ==> rs[i] == RecordOf(ops[i])
  {
    seq(|ops|, i requires 0 <= i < |ops| => RecordOf(ops[i]))
  }

  /** A full value log is synced and a new one started. */
  function Rotated(s: State): State {
    if s.current in s.vlogs then
      var synced := s.vlogs[s.current := Vlog.Synced(s.vlogs[s.current])];
      s.(vlogs := synced[s.current + 1 := Vlog.Log([], [])], current := s.current + 1)
    else s
  }

  function CurrentSize(s: State): nat {
    if s.current in s.vlogs then |s.vlogs[s.current].file| else 0
  }

  /** The current value log's buffer has reached the size at which an append writes it out. */
  predicate Full(s: State) {
    s.current in s.vlogs && |s.vlogs[s.current].buffer| >= Vlog.FLUSH_SIZE
  }

  ghost predicate Enabled(s: State, step: Step) {
    match step
    case Begin(batch) =>
      && s.phase.Idle? && batch != [] && s.current + 1 < TWO32
      && forall i :: 0 <= i < |batch| ==> Loggable(batch[i])
    case Value => s.phase.Values? && |s.phase.ptrs| < |s.phase.batch| && !Full(s) && s.current + 1 < TWO32
    case WriteOut => s.phase.Values? && Full(s)
    case SyncValues => s.phase.Values? && |s.phase.ptrs| == |s.phase.batch| && !Full(s)
    case LogRecord => s.phase.Records? && s.phase.i < |s.phase.batch| && |s.phase.ptrs| == |s.phase.batch|
    case LogDone => s.phase.Records? && s.phase.i == |s.phase.batch|
    case SyncLog => s.phase.Syncing?
    case Publish => s.phase.Publishing? && |s.phase.ptrs| == |s.phase.batch|
  }

  function AppendValue(s: State, key: Key, value: Bytes): State {
    if s.current in s.vlogs then
      s.(vlogs := s.vlogs[s.current := Vlog.Buffered(s.vlogs[s.current], key, value)])
    else s
  }

  /** Puts one request's value in the value log, starting a new file if the current one is full. */
  function PutValue(s: State, r: Request): (State, Pointer) {
    if r.value.None? then (s, Pointer(s.walId, MAX_UINT64, 0))
    else
      var s' := if CurrentSize(s) >= s.limit then Rotated(s) else s;
      var log := if s'.current in s'.vlogs then s'.vlogs[s'.current] else Vlog.Log([], []);
      (AppendValue(s', r.key, r.value.value), Vlog.PointerTo(log, s'.current, r.key, r.value.value))
  }

  function Insert(mem: map<Key, Pointer>, batch: seq<Request>, ptrs: seq<Pointer>): map<Key, Pointer>
    requires |batch| == |ptrs|
  {
    if batch == [] then mem
    else
      var n := |batch| - 1;
      Insert(mem, batch[..n], ptrs[..n])[batch[n].key := ptrs[n]]
  }

  ghost function Do(s: State, step: Step): State
    requires Enabled(s, step)
  {
    match step
    case Begin(batch) =>
      var s' := if CurrentSize(s) > s.limit then Rotated(s) else s;
      s'.(phase := Values(batch, []))
    case Value =>
      var (s', p) := PutValue(s, s.phase.batch[|s.phase.ptrs|]);
      s'.(phase := Values(s.phase.batch, s.phase.ptrs + [p]))
    case WriteOut => s.(vlogs := s.vlogs[s.current := Vlog.Synced(s.vlogs[s.current])])
    case SyncValues =>
      var s' := s.(phase := Records(s.phase.batch, s.phase.ptrs, 0));
      if NeedsSync(s.phase.batch) && s.current in s.vlogs
      then s'.(vlogs := s.vlogs[s.current := Vlog.Synced(s.vlogs[s.current])]) else s'
    case LogRecord =>
      var op := OpOf(s.phase.batch[s.phase.i], s.phase.ptrs[s.phase.i]);
      s.(wal := Vlog.Log(s.wal.file, s.wal.buffer + Wal.RecordBytes(RecordOf(op))), queued := s.queued + [op],
         phase := Records(s.phase.batch, s.phase.ptrs, s.phase.i + 1))
    case LogDone =>
      if NeedsSync(s.phase.batch) then s.(phase := Syncing(s.phase.batch, s.phase.ptrs))
      else s.(phase := Publishing(s.phase.batch, s.phase.ptrs))
    case SyncLog =>
      s.(wal := Vlog.Synced(s.wal), logged := s.logged + s.queued, queued := [],
         phase := Publishing(s.phase.batch, s.phase.ptrs))
    case Publish =>
      s.(mem := Insert(s.mem, s.phase.batch, s.phase.ptrs), phase := Idle, published := |s.logged| + |s.queued|)
  }

  // --------------------------------------------------------------- meaning

  /** The pointer the last operation on `k` left, if that was a put. */
  ghost function LiveIn(ops: seq<Op>, k: Key): Option<Op> {
    if ops == [] then None
    else
      var op := ops[|ops| - 1];
      if op.key == k then (if op.value.Some? then Some(op) else None) else LiveIn(ops[..|ops| - 1], k)
  }

  function Lookup(mem: map<Key, Pointer>, k: Key): Option<Pointer> {
    if k in mem then Some(mem[k]) else None
  }

  ghost function LivePointer(ops: seq<Op>, k: Key): Option<Pointer> {
    if LiveIn(ops, k).Some? then Some(LiveIn(ops, k).value.ptr) else None
  }

  /** The memtable shows exactly the effect of `ops`, the last write to a key winning. */
  ghost predicate Shows(mem: map<Key, Pointer>, ops: seq<Op>) {
    forall k: Key :: Live(Lookup(mem, k)) == LivePointer(ops, k)
  }

  // ------------------------------------------------------------ crash states

  /** What may be on disk after a crash: a log being written out may have got any part of its buffer
      there, a value log any part of its own. */
  ghost predicate Survives(s: State, wal: Bytes, files: map<nat, Bytes>) {
    && (if s.phase.Syncing? then s.wal.file <= wal <= s.wal.file + s.wal.buffer else wal == s.wal.file)
    && files.Keys == s.vlogs.Keys
    && forall id :: id in files ==> s.vlogs[id].file <= files[id] <= Vlog.Whole(s.vlogs[id])
  }

  /** Recovery reads the log back into an empty memtable. */
  method Recover(wal: Bytes, walId: nat) returns (mem: map<Key, Pointer>, tainted: bool)
    ensures mem == Loaded(Wal.Replay(wal).entries, walId) && tainted == Wal.Replay(wal).tainted
  {
    hide Wal.Replay;
    var log := new Wal.WAL(wal);
    var result := log.ReplayLog();
    var es := result.entries;
    mem := map[];
    var i := 0;
    while i < |es|
      invariant i <= |es| && mem == Loaded(es[..i], walId)
    {
      assert es[..i + 1][..i] == es[..i];
      if es[i].tombstone {
        mem := mem[es[i].key := Pointer(walId, MAX_UINT64, 0)];
      } else {
        mem := mem[es[i].key := es[i].ptr];
      }
      i := i + 1;
    }
    assert es[..i] == es;
    tainted := result.tainted;
  }

  ghost function Loaded(es: seq<Wal.Entry>, walId: nat): map<Key, Pointer> {
    if es == [] then map[]
    else
      var e := es[|es| - 1];
      Loaded(es[..|es| - 1], walId)[e.key := if e.tombstone then Pointer(walId, MAX_UINT64, 0) else e.ptr]
  }

  /** What the log can carry of an operation; the pointer of a put is not mistaken for a tombstone. */
  ghost predicate OpOk(op: Op) {
    && |op.key| <= Wal.MAX_FIELD_SIZE
    && (op.value.Some? ==> op.ptr.fileId < TWO32 && op.ptr.offset < MAX_UINT64 && op.ptr.length < Wal.TOMBSTONE_MARK)
  }

  /** `p` stands for the operation in a memtable. */
  ghost predicate StandsFor(op: Op, p: Pointer) {
    if op.value.Some? then p == op.ptr && !IsTombstone(p) else IsTombstone(p)
  }

  lemma ShowsPut(mem: map<Key, Pointer>, ops: seq<Op>, op: Op, p: Pointer)
    requires Shows(mem, ops) && StandsFor(op, p)
    ensures Shows(mem[op.key := p], ops + [op])
  {
    var mem', ops' := mem[op.key := p], ops + [op];
    assert ops'[..|ops|] == ops;
    forall k: Key ensures Live(Lookup(mem', k)) == LivePointer(ops', k) {
      assert Live(Lookup(mem, k)) == LivePointer(ops, k);
    }
  }

  lemma {:induction false} LoadedShows(ops: seq<Op>, walId: nat)
    requires forall op :: op in ops ==> OpOk(op)
    ensures Shows(Loaded(Wal.EntriesOf(RecordsOf(ops)), walId), ops)
  {
    hide Shows, LiveIn;
    if ops == [] {
      ShowsNothing();
    } else {
      var n := |ops| - 1;
      LoadedShows(ops[..n], walId);
      var es := Wal.EntriesOf(RecordsOf(ops));
      assert es[..n] == Wal.EntriesOf(RecordsOf(ops[..n]));
      var e := es[n];
      assert ops[n] in ops && e == Wal.EntryOf(RecordOf(ops[n]));
      var p := if e.tombstone then Pointer(walId, MAX_UINT64, 0) else e.ptr;
      ShowsPut(Loaded(es[..n], walId), ops[..n], ops[n], p);
      assert ops[..n] + [ops[n]] == ops;
    }
  }

  /** Recovery of a log that ends in a put shows the put, exactly when its length is not the tombstone mark;
      otherwise it shows the key deleted. */
  lemma RecoveredPut(rs: seq<Wal.Record>, r: Wal.Record, walId: nat)
    requires (forall x :: x in rs ==> Wal.Readable(x)) && Wal.Readable(r) && r.ptr.offset < MAX_UINT64
    ensures var shown := Live(Lookup(Loaded(Wal.Replay(Wal.LogBytes(rs + [r])).entries, walId), r.key));
            shown == if r.ptr.length != Wal.TOMBSTONE_MARK then Some(r.ptr) else None
  {
    hide Wal.LogBytes, Wal.Replay, Wal.EntriesOf;
    Wal.ReplayIntact(rs + [r]);
    Wal.EntriesAppend(rs, r);
    var es := Wal.EntriesOf(rs);
    assert (es + [Wal.EntryOf(r)])[..|es|] == es;
  }

  lemma ShowsNothing()
    ensures Shows(map[], [])
  {
  }

  // -------------------------------------------------------------- invariants

  ghost function Ops(s: State): seq<Op> {
    s.logged + s.queued
  }

  /** The operation's value is on disk. */
  ghost predicate Durable(vlogs: map<nat, Vlog.Log>, op: Op) {
    op.value.Some? ==> op.ptr.fileId in vlogs && Vlog.Names(vlogs[op.ptr.fileId].file, op.ptr, op.value.value)
  }

  /** The operation's value is on disk or in a buffer. */
  ghost predicate Written(vlogs: map<nat, Vlog.Log>, op: Op) {
    op.value.Some? ==> op.ptr.fileId in vlogs && Vlog.Names(Vlog.Whole(vlogs[op.ptr.fileId]), op.ptr, op.value.value)
  }

  /** Only the current value log buffers anything. */
  ghost predicate VlogsOk(vlogs: map<nat, Vlog.Log>, current: nat) {
    && current in vlogs && current < TWO32
    && forall id :: id in vlogs ==> VlogOk(vlogs[id], id, current)
  }

  ghost predicate VlogOk(log: Vlog.Log, id: nat, current: nat) {
    id <= current && (id != current ==> log.buffer == [])
  }

  ghost predicate LogOk(s: State) {
    && s.wal.file == Wal.LogBytes(RecordsOf(s.logged)) && s.wal.buffer == Wal.LogBytes(RecordsOf(s.queued))
    && (forall op :: op in s.logged ==> OpOk(op) && Durable(s.vlogs, op))
    && (forall op :: op in s.queued ==> OpOk(op) && Written(s.vlogs, op))
  }

  /** A request of the batch that has its pointer. */
  ghost predicate ReadyOp(vlogs: map<nat, Vlog.Log>, op: Op) {
    OpOk(op) && Written(vlogs, op) && StandsFor(op, op.ptr)
  }

  ghost predicate PtrsOk(s: State, batch: seq<Request>, ptrs: seq<Pointer>) {
    && |ptrs| <= |batch|
    && (forall i :: 0 <= i < |batch| ==> Loggable(batch[i]))
    && (forall i :: 0 <= i < |ptrs| ==> ReadyOp(s.vlogs, OpOf(batch[i], ptrs[i])))
  }

  ghost function BatchOps(batch: seq<Request>, ptrs: seq<Pointer>, n: nat): (ops: seq<Op>)
    requires n <= |batch| && n <= |ptrs|
    ensures |ops| == n
  {
    seq(n, i requires 0 <= i < n => OpOf(batch[i], ptrs[i]))
  }

  /** The memtable shows what is published; beyond that the log holds the batch so far. */
  ghost predicate InStep(s: State, batch: seq<Request>, ptrs: seq<Pointer>, n: nat) {
    && s.published <= |Ops(s)| && Shows(s.mem, Ops(s)[..s.published])
    && n <= |batch| && n <= |ptrs| && Ops(s)[s.published..] == BatchOps(batch, ptrs, n)
  }

  /** A batch that will sync the log has its values on disk first. */
  ghost predicate ValuesFirst(s: State, batch: seq<Request>) {
    NeedsSync(batch) ==> s.current in s.vlogs && s.vlogs[s.current].buffer == []
  }

  ghost predicate PhaseOk(s: State) {
    match s.phase
    case Idle => InStep(s, [], [], 0)
    case Values(batch, ptrs) => PtrsOk(s, batch, ptrs) && InStep(s, batch, ptrs, 0)
    case Records(batch, ptrs, i) =>
      PtrsOk(s, batch, ptrs) && |ptrs| == |batch| && InStep(s, batch, ptrs, i) && ValuesFirst(s, batch)
    case Syncing(batch, ptrs) =>
      && PtrsOk(s, batch, ptrs) && |ptrs| == |batch| && InStep(s, batch, ptrs, |batch|) && ValuesFirst(s, batch)
      && NeedsSync(batch)
    case Publishing(batch, ptrs) =>
      && PtrsOk(s, batch, ptrs) && |ptrs| == |batch| && InStep(s, batch, ptrs, |batch|)
      && (NeedsSync(batch) ==> s.queued == [])
  }

  ghost predicate Inv(s: State) {
    VlogsOk(s.vlogs, s.current) && LogOk(s) && PhaseOk(s) && Vlog.LimitOk(s.limit)
  }

  /** Value logs only ever grow. */
  ghost predicate Grows(a: map<nat, Vlog.Log>, b: map<nat, Vlog.Log>) {
    forall id :: id in a ==> id in b && GrewTo(a[id], b[id])
  }

  ghost predicate GrewTo(l: Vlog.Log, l': Vlog.Log) {
    l.file <= l'.file && Vlog.Whole(l) <= Vlog.Whole(l')
  }

  lemma StaysDurable(a: map<nat, Vlog.Log>, b: map<nat, Vlog.Log>, op: Op)
    requires Grows(a, b)
    ensures Durable(a, op) ==> Durable(b, op)
    ensures Written(a, op) ==> Written(b, op)
  {
    hide Vlog.Names, Vlog.Whole;
    if op.value.Some? && op.ptr.fileId in a {
      var id := op.ptr.fileId;
      assert GrewTo(a[id], b[id]);
      if Durable(a, op) { Vlog.NamesGrow(a[id].file, b[id].file, op.ptr, op.value.value); }
      if Written(a, op) { Vlog.NamesGrow(Vlog.Whole(a[id]), Vlog.Whole(b[id]), op.ptr, op.value.value); }
    }
  }

  /** Growing the value logs keeps everything said about the log and the batch. */
  lemma GrowthKeeps(s: State, s': State, batch: seq<Request>, ptrs: seq<Pointer>)
    requires LogOk(s) && Grows(s.vlogs, s'.vlogs) && PtrsOk(s, batch, ptrs)
    requires s'.wal == s.wal && s'.logged == s.logged && s'.queued == s.queued
    ensures LogOk(s') && PtrsOk(s', batch, ptrs)
  {
    hide Durable, Written, Grows, Wal.LogBytes, OpOk, StandsFor, Loggable;
    forall op: Op ensures (Durable(s.vlogs, op) ==> Durable(s'.vlogs, op))
                          && (Written(s.vlogs, op) ==> Written(s'.vlogs, op)) {
      StaysDurable(s.vlogs, s'.vlogs, op);
    }
  }

  // ------------------------------------------------------------------- steps

  lemma RotateOk(s: State)
    requires VlogsOk(s.vlogs, s.current) && s.current + 1 < TWO32
    ensures var s' := Rotated(s);
            && VlogsOk(s'.vlogs, s'.current) && Grows(s.vlogs, s'.vlogs) && s'.current == s.current + 1
            && s'.vlogs[s'.current] == Vlog.Log([], []) && s' == s.(vlogs := s'.vlogs, current := s'.current)
  {
    var s' := Rotated(s);
    forall id | id in s.vlogs ensures GrewTo(s.vlogs[id], s'.vlogs[id]) {
      assert VlogOk(s.vlogs[id], id, s.current);
    }
    forall id | id in s'.vlogs ensures VlogOk(s'.vlogs[id], id, s'.current) {
      if id in s.vlogs { assert VlogOk(s.vlogs[id], id, s.current); }
    }
  }

  lemma AppendOk(s: State, key: Key, value: Bytes)
    requires VlogsOk(s.vlogs, s.current)
    requires CurrentSize(s) <= s.limit && Vlog.LimitOk(s.limit) && !Full(s)
    requires |key| <= Wal.MAX_FIELD_SIZE && |value| < Wal.TOMBSTONE_MARK
    ensures var s', p := AppendValue(s, key, value), Vlog.PointerTo(s.vlogs[s.current], s.current, key, value);
            && VlogsOk(s'.vlogs, s'.current) && Grows(s.vlogs, s'.vlogs) && s' == s.(vlogs := s'.vlogs)
            && ReadyOp(s'.vlogs, Op(key, Some(value), p))
  {
    hide Vlog.RecordBytes, Vlog.Names;
    var s' := AppendValue(s, key, value);
    Vlog.BufferedNames(s.vlogs[s.current], s.current, key, value);
    assert VlogOk(s.vlogs[s.current], s.current, s.current);
    forall id | id in s.vlogs ensures GrewTo(s.vlogs[id], s'.vlogs[id]) {
    }
    forall id | id in s'.vlogs ensures VlogOk(s'.vlogs[id], id, s'.current) {
      assert VlogOk(s.vlogs[id], id, s.current);
    }
  }

  lemma GrowsTrans(a: map<nat, Vlog.Log>, b: map<nat, Vlog.Log>, c: map<nat, Vlog.Log>)
    requires Grows(a, b) && Grows(b, c)
    ensures Grows(a, c)
  {
    hide Vlog.Whole;
    forall id | id in a ensures id in c && GrewTo(a[id], c[id]) {
      assert GrewTo(a[id], b[id]) && GrewTo(b[id], c[id]);
    }
  }

  lemma GrowsSelf(a: map<nat, Vlog.Log>)
    ensures Grows(a, a)
  {
  }

  lemma PutValueOk(s: State, r: Request)
    requires VlogsOk(s.vlogs, s.current) && !Full(s) && s.current + 1 < TWO32 && Loggable(r) && Vlog.LimitOk(s.limit)
    ensures var (s', p) := PutValue(s, r);
            && VlogsOk(s'.vlogs, s'.current) && Grows(s.vlogs, s'.vlogs)
            && s' == s.(vlogs := s'.vlogs, current := s'.current) && ReadyOp(s'.vlogs, OpOf(r, p))
  {
    hide VlogsOk, Grows, Rotated, AppendValue, ReadyOp, Vlog.PointerTo;
    if r.value.None? {
      GrowsSelf(s.vlogs);
      assert ReadyOp(s.vlogs, OpOf(r, Pointer(s.walId, MAX_UINT64, 0))) by { DeleteReady(s, r); }
    } else if CurrentSize(s) >= s.limit {
      RotateOk(s);
      var s1 := Rotated(s);
      AppendOk(s1, r.key, r.value.value);
      GrowsTrans(s.vlogs, s1.vlogs, AppendValue(s1, r.key, r.value.value).vlogs);
      CurrentThere(s1);
    } else {
      AppendOk(s, r.key, r.value.value);
      CurrentThere(s);
    }
  }

  lemma CurrentThere(s: State)
    requires VlogsOk(s.vlogs, s.current)
    ensures s.current in s.vlogs
  {
  }

  lemma DeleteReady(s: State, r: Request)
    requires r.value.None? && Loggable(r)
    ensures ReadyOp(s.vlogs, OpOf(r, Pointer(s.walId, MAX_UINT64, 0)))
  {
  }

  lemma BeginStep(s: State, step: Step)
    requires Inv(s) && Enabled(s, step) && step.Begin?
    ensures Inv(Do(s, step))
  {
    hide VlogsOk, Grows, Rotated, LogOk, Shows, Loggable, ReadyOp;
    var s' := Do(s, step);
    if CurrentSize(s) > s.limit { RotateOk(s); } else { GrowsSelf(s.vlogs); }
    assert PtrsOk(s, step.batch, []);
    GrowthKeeps(s, s', step.batch, []);
    assert BatchOps(step.batch, [], 0) == BatchOps([], [], 0);
  }

  lemma ValueStep(s: State, step: Step)
    requires Inv(s) && Enabled(s, step) && step.Value?
    ensures Inv(Do(s, step))
  {
    hide VlogsOk, Grows, LogOk, Shows, Loggable, ReadyOp, PutValue;
    var s' := Do(s, step);
    var batch, ptrs := s.phase.batch, s.phase.ptrs;
    var i := |ptrs|;
    PutValueOk(s, batch[i]);
    GrowthKeeps(s, s', batch, ptrs);
    assert PtrsOk(s', batch, s'.phase.ptrs);
    assert BatchOps(batch, s'.phase.ptrs, 0) == BatchOps(batch, ptrs, 0);
  }

  lemma SyncedOk(s: State)
    requires VlogsOk(s.vlogs, s.current)
    ensures var vlogs := s.vlogs[s.current := Vlog.Synced(s.vlogs[s.current])];
            VlogsOk(vlogs, s.current) && Grows(s.vlogs, vlogs)
  {
    var vlogs := s.vlogs[s.current := Vlog.Synced(s.vlogs[s.current])];
    forall id | id in s.vlogs ensures GrewTo(s.vlogs[id], vlogs[id]) && VlogOk(vlogs[id], id, s.current) {
      assert VlogOk(s.vlogs[id], id, s.current);
    }
  }

  lemma WriteOutStep(s: State, step: Step)
    requires Inv(s) && Enabled(s, step) && step.WriteOut?
    ensures Inv(Do(s, step)) && !Full(Do(s, step))
  {
    hide VlogsOk, Grows, LogOk, Shows, Loggable, ReadyOp;
    SyncedOk(s);
    GrowthKeeps(s, Do(s, step), s.phase.batch, s.phase.ptrs);
  }

  lemma SyncValuesStep(s: State, step: Step)
    requires Inv(s) && Enabled(s, step) && step.SyncValues?
    ensures Inv(Do(s, step))
  {
    hide VlogsOk, Grows, LogOk, Shows, Loggable, ReadyOp, NeedsSync;
    var s' := Do(s, step);
    CurrentThere(s);
    if NeedsSync(s.phase.batch) { SyncedOk(s); } else { GrowsSelf(s.vlogs); }
    GrowthKeeps(s, s', s.phase.batch, s.phase.ptrs);
  }

  lemma LogRecordStep(s: State, step: Step)
    requires Inv(s) && Enabled(s, step) && step.LogRecord?
    ensures Inv(Do(s, step))
  {
    hide VlogsOk, Shows, Loggable, Wal.RecordBytes, NeedsSync, OpOk, Written, Durable, StandsFor, Wal.LogBytes;
    var s' := Do(s, step);
    var batch, ptrs, i := s.phase.batch, s.phase.ptrs, s.phase.i;
    var op := OpOf(batch[i], ptrs[i]);
    assert ReadyOp(s.vlogs, op);
    assert RecordsOf(s.queued + [op]) == RecordsOf(s.queued) + [RecordOf(op)];
    Wal.LogAppend(RecordsOf(s.queued), [RecordOf(op)]);
    Wal.LogOne(RecordOf(op));
    assert Ops(s') == Ops(s) + [op];
    assert Ops(s')[..s.published] == Ops(s)[..s.published];
    assert Ops(s')[s.published..] == Ops(s)[s.published..] + [op];
    assert BatchOps(batch, ptrs, i + 1) == BatchOps(batch, ptrs, i) + [op];
  }

  lemma LogDoneStep(s: State, step: Step)
    requires Inv(s) && Enabled(s, step) && step.LogDone?
    ensures Inv(Do(s, step))
  {
    hide VlogsOk, Shows, Loggable, ReadyOp, Wal.LogBytes, OpOk, Durable, Written;
  }

  lemma SyncLogStep(s: State, step: Step)
    requires Inv(s) && Enabled(s, step) && step.SyncLog?
    ensures Inv(Do(s, step))
  {
    hide Shows, Loggable, ReadyOp, Wal.LogBytes, OpOk, NeedsSync, Vlog.Names;
    var s' := Do(s, step);
    assert RecordsOf(s.logged + s.queued) == RecordsOf(s.logged) + RecordsOf(s.queued);
    Wal.LogAppend(RecordsOf(s.logged), RecordsOf(s.queued));
    NothingQueued();
    assert Ops(s') == Ops(s);
    forall op | op in s'.logged ensures OpOk(op) && Durable(s'.vlogs, op) {
      if op in s.queued { WrittenIsDurable(s, op); }
    }
  }

  lemma NothingQueued()
    ensures Wal.LogBytes(RecordsOf([])) == []
  {
  }

  /** With no buffer holding anything, what is written is durable. */
  lemma WrittenIsDurable(s: State, op: Op)
    requires VlogsOk(s.vlogs, s.current) && s.vlogs[s.current].buffer == [] && Written(s.vlogs, op)
    ensures Durable(s.vlogs, op)
  {
    hide Vlog.Names;
    if op.value.Some? {
      var log := s.vlogs[op.ptr.fileId];
      assert VlogOk(log, op.ptr.fileId, s.current);
      assert log.file + [] == log.file;
    }
  }

  lemma {:induction false} InsertShows(mem: map<Key, Pointer>, ops: seq<Op>, batch: seq<Request>, ptrs: seq<Pointer>)
    requires |batch| == |ptrs| && Shows(mem, ops)
    requires forall i :: 0 <= i < |batch| ==> StandsFor(OpOf(batch[i], ptrs[i]), ptrs[i])
    ensures Shows(Insert(mem, batch, ptrs), ops + BatchOps(batch, ptrs, |batch|))
  {
    hide Shows, StandsFor;
    if batch == [] {
      assert ops + BatchOps(batch, ptrs, 0) == ops;
    } else {
      var n := |batch| - 1;
      InsertShows(mem, ops, batch[..n], ptrs[..n]);
      var front, op := ops + BatchOps(batch[..n], ptrs[..n], n), OpOf(batch[n], ptrs[n]);
      ShowsPut(Insert(mem, batch[..n], ptrs[..n]), front, op, ptrs[n]);
      assert front + [op] == ops + BatchOps(batch, ptrs, |batch|);
    }
  }

  lemma PublishStep(s: State, step: Step)
    requires Inv(s) && Enabled(s, step) && step.Publish?
    ensures Inv(Do(s, step))
  {
    hide Shows, Loggable, Wal.LogBytes, OpOk, NeedsSync, Written, Durable, VlogsOk, StandsFor, Insert;
    var s' := Do(s, step);
    var batch, ptrs := s.phase.batch, s.phase.ptrs;
    forall i | 0 <= i < |batch| ensures StandsFor(OpOf(batch[i], ptrs[i]), ptrs[i]) {
      assert ReadyOp(s.vlogs, OpOf(batch[i], ptrs[i]));
    }
    var ops := Ops(s);
    InsertShows(s.mem, ops[..s.published], batch, ptrs);
    assert ops[..s.published] + ops[s.published..] == ops;
    assert Ops(s')[..|ops|] == ops && Ops(s')[|ops|..] == BatchOps([], [], 0);
  }

  lemma InvStep(s: State, step: Step)
    requires Inv(s) && Enabled(s, step)
    ensures Inv(Do(s, step))
  {
    hide Inv, Enabled, Do;
    match step
    case Begin(_) => BeginStep(s, step);
    case Value => ValueStep(s, step);
    case WriteOut => WriteOutStep(s, step);
    case SyncValues => SyncValuesStep(s, step);
    case LogRecord => LogRecordStep(s, step);
    case LogDone => LogDoneStep(s, step);
    case SyncLog => SyncLogStep(s, step);
    case Publish => PublishStep(s, step);
  }

  // -------------------------------------------------------------------- runs

  /** A store just opened on an intact log whose values are all on disk. */
  ghost predicate Opened(s: State) {
    && s.phase.Idle? && s.queued == [] && s.wal == Vlog.Log(Wal.LogBytes(RecordsOf(s.logged)), [])
    && s.published == |s.logged| && Shows(s.mem, s.logged)
    && VlogsOk(s.vlogs, s.current) && Vlog.LimitOk(s.limit)
    && forall op :: op in s.logged ==> OpOk(op) && Durable(s.vlogs, op)
  }

  ghost predicate Stepped(s: State, step: Step, s': State) {
    Enabled(s, step) && s' == Do(s, step)
  }

  /** `steps[i]` leads from `run[i]` to the next state. */
  ghost predicate IsRun(run: seq<State>, steps: seq<Step>) {
    && |run| == |steps| + 1 && Opened(run[0])
    && forall i :: 0 <= i < |steps| ==> Stepped(run[i], steps[i], run[i + 1])
  }

  lemma RunStep(run: seq<State>, steps: seq<Step>, n: nat)
    requires IsRun(run, steps) && n < |steps|
    ensures Stepped(run[n], steps[n], run[n + 1])
  {
    hide Stepped, Opened;
  }

  lemma OpenedInv(s: State)
    requires Opened(s)
    ensures Inv(s)
  {
    hide Shows, VlogsOk, OpOk, Durable;
    NothingQueued();
    assert Ops(s) == s.logged && s.logged[..|s.logged|] == s.logged;
    assert Ops(s)[|s.logged|..] == BatchOps([], [], 0);
  }

  lemma {:induction false} RunInv(run: seq<State>, steps: seq<Step>, n: nat)
    requires IsRun(run, steps) && n < |run|
    ensures Inv(run[n])
  {
    hide Inv, Enabled, Do, Opened;
    if n == 0 {
      OpenedInv(run[0]);
    } else {
      RunInv(run, steps, n - 1);
      RunStep(run, steps, n - 1);
      InvStep(run[n - 1], steps[n - 1]);
    }
  }

  // ---------------------------------------------------- what clients asked for

  /** A key set to a value, or deleted. */
  type KeyWrite = (Key, Option<Bytes>)

  function WritesOf(ops: seq<Op>): (ws: seq<KeyWrite>)
    ensures |ws| == |ops|
  {
    seq(|ops|, i requires 0 <= i < |ops| => (ops[i].key, ops[i].value))
  }

  function WritesIn(qs: seq<Request>): (ws: seq<KeyWrite>)
    ensures |ws| == |qs|
  {
    seq(|qs|, i requires 0 <= i < |qs| => (qs[i].key, qs[i].value))
  }

  /** The requests of all batches begun, in order. */
  ghost function Asked(steps: seq<Step>): seq<Request> {
    if steps == [] then []
    else Asked(steps[..|steps| - 1]) + if steps[|steps| - 1].Begin? then steps[|steps| - 1].batch else []
  }

  /** The batch begun last. */
  ghost function LastBatch(steps: seq<Step>): seq<Request> {
    if steps == [] then []
    else if steps[|steps| - 1].Begin? then steps[|steps| - 1].batch
    else LastBatch(steps[..|steps| - 1])
  }

  /** What a key was last set to; nothing if it was deleted or never set. */
  ghost function LastValue(ws: seq<KeyWrite>, k: Key): Option<Bytes> {
    if ws == [] then None
    else if ws[|ws| - 1].0 == k then ws[|ws| - 1].1
    else LastValue(ws[..|ws| - 1], k)
  }

  /** Some request of the batch begun last asked for a sync. */
  ghost predicate AsksSync(steps: seq<Step>) {
    exists q :: q in LastBatch(steps) && q.sync
  }

  lemma OneMoreStep(steps: seq<Step>, n: nat)
    requires n < |steps|
    ensures Asked(steps[..n + 1]) == Asked(steps[..n]) + if steps[n].Begin? then steps[n].batch else []
    ensures LastBatch(steps[..n + 1]) == if steps[n].Begin? then steps[n].batch else LastBatch(steps[..n])
  {
    assert steps[..n + 1][..n] == steps[..n];
  }

  /** The requests of the batch under way that have no log record yet. */
  ghost function Unlogged(p: Phase): seq<Request> {
    match p
    case Values(batch, _) => batch
    case Records(batch, _, i) => if i <= |batch| then batch[i..] else []
    case _ => []
  }

  /** The log holds, in order, what it was opened with and what was asked since, up to the batch under way. */
  ghost predicate Follows(s: State, before: seq<Op>, asked: seq<Request>, last: seq<Request>) {
    && WritesOf(Ops(s)) + WritesIn(Unlogged(s.phase)) == WritesOf(before) + WritesIn(asked)
    && (!s.phase.Idle? ==> s.phase.batch == last) && before <= s.logged
  }

  lemma BeginFollows(s: State, step: Step, before: seq<Op>, asked: seq<Request>, last: seq<Request>)
    requires Enabled(s, step) && step.Begin? && Follows(s, before, asked, last)
    ensures Follows(Do(s, step), before, asked + step.batch, step.batch) && s.logged <= Do(s, step).logged
  {
    hide Rotated, Loggable;
    var s', batch := Do(s, step), step.batch;
    assert WritesIn(asked + batch) == WritesIn(asked) + WritesIn(batch);
    RotatedSame(s);
    assert s'.logged == s.logged && s'.queued == s.queued && s'.phase == Values(batch, []);
    assert WritesOf(Ops(s)) == WritesOf(before) + WritesIn(asked);
  }

  lemma RecordFollows(s: State, step: Step, before: seq<Op>, asked: seq<Request>, last: seq<Request>)
    requires Enabled(s, step) && step.LogRecord? && Follows(s, before, asked, last)
    ensures Follows(Do(s, step), before, asked, last) && s.logged <= Do(s, step).logged
  {
    hide Wal.RecordBytes, WritesOf, WritesIn;
    var batch, i := s.phase.batch, s.phase.i;
    var op := OpOf(batch[i], s.phase.ptrs[i]);
    assert batch[i..] == [batch[i]] + batch[i + 1..];
    assert Ops(Do(s, step)) == Ops(s) + [op];
    OneMoved(Ops(s), op, batch[i], batch[i + 1..]);
  }

  lemma OneMoved(ops: seq<Op>, op: Op, q: Request, rest: seq<Request>)
    requires op.key == q.key && op.value == q.value
    ensures WritesOf(ops + [op]) + WritesIn(rest) == WritesOf(ops) + WritesIn([q] + rest)
  {
    assert WritesOf(ops + [op]) == WritesOf(ops) + [(q.key, q.value)];
    assert WritesIn([q] + rest) == [(q.key, q.value)] + WritesIn(rest);
  }

  lemma FollowsStep(s: State, step: Step, before: seq<Op>, asked: seq<Request>, last: seq<Request>)
    requires Enabled(s, step) && Follows(s, before, asked, last)
    ensures var s' := Do(s, step);
            if step.Begin? then Follows(s', before, asked + step.batch, step.batch)
            else Follows(s', before, asked, last)
    ensures s.logged <= Do(s, step).logged
  {
    hide Rotated, Wal.RecordBytes, NeedsSync, Insert, Loggable, WritesOf, WritesIn;
    match step
    case Begin(_) => BeginFollows(s, step, before, asked, last);
    case Value => PutValueSame(s, s.phase.batch[|s.phase.ptrs|]);
    case SyncValues => assert s.phase.batch[0..] == s.phase.batch;
    case LogRecord => RecordFollows(s, step, before, asked, last);
    case LogDone => assert s.phase.batch[s.phase.i..] == [];
    case SyncLog => assert Ops(Do(s, step)) == Ops(s);
    case _ =>
  }

  lemma RotatedSame(s: State)
    ensures Rotated(s) == s.(vlogs := Rotated(s).vlogs, current := Rotated(s).current)
  {
  }

  lemma PutValueSame(s: State, r: Request)
    ensures var (s', _) := PutValue(s, r); s' == s.(vlogs := s'.vlogs, current := s'.current)
  {
    hide Rotated;
    RotatedSame(s);
  }

  lemma {:induction false} RunFollows(run: seq<State>, steps: seq<Step>, n: nat)
    requires IsRun(run, steps) && n < |run|
    ensures Follows(run[n], run[0].logged, Asked(steps[..n]), LastBatch(steps[..n]))
  {
    hide Inv, Enabled, Do, Follows, Asked, LastBatch;
    if n == 0 {
      OpenedFollows(run[0]);
      assert steps[..0] == [];
    } else {
      RunFollows(run, steps, n - 1);
      RunInv(run, steps, n - 1);
      RunStep(run, steps, n - 1);
      FollowsStep(run[n - 1], steps[n - 1], run[0].logged, Asked(steps[..n - 1]), LastBatch(steps[..n - 1]));
      OneMoreStep(steps, n - 1);
      assert Asked(steps[..n - 1]) + [] == Asked(steps[..n - 1]);
    }
  }

  lemma OpenedFollows(s: State)
    requires Opened(s)
    ensures Follows(s, s.logged, Asked([]), LastBatch([]))
  {
    hide VlogsOk, Shows, Durable, OpOk;
    assert Ops(s) == s.logged;
  }

  /** When a batch with a sync request returns, the log file holds it and everything before it. */
  lemma SyncedBatchLogged(run: seq<State>, steps: seq<Step>, i: nat)
    requires IsRun(run, steps) && i < |steps| && steps[i].Publish? && AsksSync(steps[..i])
    ensures run[i + 1].queued == []
    ensures WritesOf(run[i + 1].logged) == WritesOf(run[0].logged) + WritesIn(Asked(steps[..i]))
  {
    hide Stepped, Opened, Asked, LastBatch, Do;
    RunInv(run, steps, i);
    RunFollows(run, steps, i);
    RunStep(run, steps, i);
    PublishKeepsLog(run[i], run[i + 1], steps[i]);
    var s := run[i];
    var q :| q in LastBatch(steps[..i]) && q.sync;
    var j :| 0 <= j < |s.phase.batch| && s.phase.batch[j] == q;
    SyncedAlready(s, j);
    assert Ops(s) == s.logged;
  }

  lemma PublishKeepsLog(s: State, s': State, step: Step)
    requires Stepped(s, step, s') && step.Publish?
    ensures s.phase.Publishing? && s'.logged == s.logged && s'.queued == s.queued
  {
    hide Insert;
  }

  lemma SyncedAlready(s: State, j: nat)
    requires Inv(s) && s.phase.Publishing? && j < |s.phase.batch| && s.phase.batch[j].sync
    ensures s.queued == []
  {
    hide VlogsOk, LogOk, Shows, PtrsOk, InStep;
  }

  lemma {:induction false} LoggedGrows(run: seq<State>, steps: seq<Step>, i: nat, n: nat)
    requires IsRun(run, steps) && i <= n < |run|
    ensures run[i].logged <= run[n].logged
  {
    hide Inv, Enabled, Do, Opened, Follows;
    if i < n {
      LoggedGrows(run, steps, i, n - 1);
      RunInv(run, steps, n - 1);
      RunFollows(run, steps, n - 1);
      RunStep(run, steps, n - 1);
      FollowsStep(run[n - 1], steps[n - 1], run[0].logged, Asked(steps[..n - 1]), LastBatch(steps[..n - 1]));
    }
  }

  // ------------------------------------------------------------ crash safety

  /** How many whole records fit in the first `n` bytes of a log. */
  lemma {:induction false} CutPoint(rs: seq<Wal.Record>, n: nat) returns (m: nat)
    requires n <= |Wal.LogBytes(rs)|
    ensures m <= |rs| && |Wal.LogBytes(rs[..m])| <= n && (m < |rs| ==> n < |Wal.LogBytes(rs[..m + 1])|)
    decreases |rs|
  {
    hide Wal.RecordBytes;
    if n == |Wal.LogBytes(rs)| {
      m := |rs|;
      assert rs[..m] == rs;
    } else {
      var k := |rs| - 1;
      Wal.LogNext(rs, k);
      assert rs[..k + 1] == rs;
      if |Wal.LogBytes(rs[..k])| <= n {
        m := k;
      } else {
        m := CutPoint(rs[..k], n);
        assert rs[..k][..m] == rs[..m];
        if m < k { assert rs[..k][..m + 1] == rs[..m + 1]; }
      }
    }
  }

  lemma AllReadable(ops: seq<Op>)
    requires forall op :: op in ops ==> OpOk(op)
    ensures forall r :: r in RecordsOf(ops) ==> Wal.Readable(r)
  {
    forall r | r in RecordsOf(ops) ensures Wal.Readable(r) {
      var i :| 0 <= i < |ops| && RecordsOf(ops)[i] == r;
      assert ops[i] in ops;
    }
  }

  lemma OpsOk(s: State)
    requires LogOk(s)
    ensures forall op :: op in Ops(s) ==> OpOk(op)
    ensures Vlog.Whole(s.wal) == Wal.LogBytes(RecordsOf(Ops(s)))
  {
    hide OpOk, Durable, Written, Wal.LogBytes;
    assert RecordsOf(Ops(s)) == RecordsOf(s.logged) + RecordsOf(s.queued);
    Wal.LogAppend(RecordsOf(s.logged), RecordsOf(s.queued));
  }

  lemma {:induction false} LogPrefixLength(rs: seq<Wal.Record>, a: nat, b: nat)
    requires a < b <= |rs|
    ensures |Wal.LogBytes(rs[..a])| < |Wal.LogBytes(rs[..b])|
  {
    hide Wal.LogBytes, Wal.RecordBytes;
    Wal.LogNext(rs, b - 1);
    if a < b - 1 { LogPrefixLength(rs, a, b - 1); }
  }

  /** Whatever part of the log survives replays to the operations up to some point, at or after the
      last one known to be in the file. */
  lemma LogSurvives(s: State, wal: Bytes, files: map<nat, Bytes>) returns (m: nat)
    requires Inv(s) && Survives(s, wal, files)
    ensures |s.logged| <= m <= |Ops(s)| && (!s.phase.Syncing? ==> m == |s.logged|)
    ensures Wal.Replay(wal).entries == Wal.EntriesOf(RecordsOf(Ops(s)[..m]))
  {
    hide Wal.LogBytes, Wal.Replay, Wal.EntriesOf, OpOk, Durable, Written, PhaseOk, VlogsOk;
    OpsOk(s);
    AllReadable(Ops(s));
    var rs := RecordsOf(Ops(s));
    var base := |s.logged|;
    assert rs[..base] == RecordsOf(s.logged);
    var whole := Wal.LogBytes(rs);
    assert wal <= whole && wal == whole[..|wal|];
    m := CutPoint(rs, |wal|);
    if m < base { LogPrefixLengthAtMost(rs, m + 1, base); }
    if !s.phase.Syncing? && base < m { LogPrefixLength(rs, base, m); }
    Wal.ReplayTruncated(rs, |wal|, m);
    assert RecordsOf(Ops(s)[..m]) == rs[..m];
  }

  lemma LogPrefixLengthAtMost(rs: seq<Wal.Record>, a: nat, b: nat)
    requires a <= b <= |rs|
    ensures |Wal.LogBytes(rs[..a])| <= |Wal.LogBytes(rs[..b])|
  {
    hide Wal.LogBytes;
    if a < b { LogPrefixLength(rs, a, b); }
  }

  lemma {:induction false} LiveIsOp(ops: seq<Op>, k: Key)
    ensures LiveIn(ops, k).Some? ==> LiveIn(ops, k).value in ops && LiveIn(ops, k).value.value.Some?
  {
    if ops != [] && ops[|ops| - 1].key != k { LiveIsOp(ops[..|ops| - 1], k); }
  }

  /** The values of the surviving operations are all readable. */
  lemma ValueSurvives(s: State, wal: Bytes, files: map<nat, Bytes>, m: nat, op: Op)
    requires Inv(s) && Survives(s, wal, files) && |s.logged| <= m <= |Ops(s)| && (!s.phase.Syncing? ==> m == |s.logged|)
    requires op in Ops(s)[..m] && op.value.Some?
    ensures op.ptr.fileId in files && Vlog.ReadAt(files[op.ptr.fileId], op.ptr) == op.value
  {
    hide Wal.LogBytes, OpOk, Vlog.Names, Shows, Vlog.Whole, PtrsOk, InStep, NeedsSync;
    if op !in s.logged {
      assert op in s.queued;
      WrittenIsDurable(s, op);
    }
    var id := op.ptr.fileId;
    assert id in files;
    Vlog.NamesGrow(s.vlogs[id].file, files[id], op.ptr, op.value.value);
    Vlog.NamedReads(files[id], op.ptr, op.value.value);
  }

  /** A crash in a good state: the recovered memtable shows the operations in commit order up to some point, no
      earlier than what is in the log file, and every live pointer in it reads its value. */
  lemma StateRecovers(s: State, wal: Bytes, files: map<nat, Bytes>, walId: nat) returns (m: nat)
    requires Inv(s) && Survives(s, wal, files)
    ensures |s.logged| <= m <= |Ops(s)| && (!s.phase.Syncing? ==> m == |s.logged|)
    ensures Shows(Loaded(Wal.Replay(wal).entries, walId), Ops(s)[..m])
    ensures forall k: Key :: Recovered(Ops(s)[..m], files, k)
  {
    hide Shows, Survives, LogOk, PhaseOk, VlogsOk, Wal.Replay, Wal.EntriesOf, Loaded, OpOk, Vlog.ReadAt, LiveIn;
    m := LogSurvives(s, wal, files);
    var ops := Ops(s)[..m];
    OpsOk(s);
    assert forall op :: op in ops ==> op in Ops(s);
    LoadedShows(ops, walId);
    forall k: Key ensures Recovered(ops, files, k) {
      LiveIsOp(ops, k);
      if LiveIn(ops, k).Some? { ValueSurvives(s, wal, files, m, LiveIn(ops, k).value); }
    }
  }

  /** What `k` was last set to can be read through its pointer. */
  ghost predicate Recovered(ops: seq<Op>, files: map<nat, Bytes>, k: Key) {
    var op := LiveIn(ops, k);
    op.Some? ==> op.value.ptr.fileId in files && Vlog.ReadAt(files[op.value.ptr.fileId], op.value.ptr) == op.value.value
  }

  /** What a get returns after recovery from a log and value logs. */
  ghost function ReadBack(wal: Bytes, files: map<nat, Bytes>, walId: nat, k: Key): Option<Bytes> {
    ReadThrough(Loaded(Wal.Replay(wal).entries, walId), files, k)
  }

  /** What a get returns through a memtable. */
  ghost function ReadThrough(mem: map<Key, Pointer>, files: map<nat, Bytes>, k: Key): Option<Bytes> {
    var p := Live(Lookup(mem, k));
    if p.Some? && p.value.fileId in files then Vlog.ReadAt(files[p.value.fileId], p.value) else None
  }

  lemma {:induction false} LiveIsLast(ops: seq<Op>, k: Key)
    ensures LastValue(WritesOf(ops), k) == if LiveIn(ops, k).Some? then LiveIn(ops, k).value.value else None
  {
    if ops != [] {
      var n := |ops| - 1;
      assert WritesOf(ops)[..n] == WritesOf(ops[..n]);
      LiveIsLast(ops[..n], k);
    }
  }

  lemma ReadsLast(mem: map<Key, Pointer>, files: map<nat, Bytes>, ops: seq<Op>, k: Key)
    requires Shows(mem, ops) && Recovered(ops, files, k)
    ensures ReadThrough(mem, files, k) == LastValue(WritesOf(ops), k)
  {
    hide LiveIn, LastValue, Vlog.ReadAt;
    LiveIsLast(ops, k);
    assert Live(Lookup(mem, k)) == LivePointer(ops, k);
  }

  /** A crash at any step of any run, part-way through any write: recovery reads, for every key, what it was last set
      to by what the log was opened with and the first `m` requests begun since, in order; and every batch with a
      sync request that has returned is among those `m`. */
  lemma CrashSafe(run: seq<State>, steps: seq<Step>, n: nat, wal: Bytes, files: map<nat, Bytes>, walId: nat)
    returns (m: nat)
    requires IsRun(run, steps) && n < |run| && Survives(run[n], wal, files)
    ensures m <= |Asked(steps[..n])|
    ensures forall i :: 0 <= i < n && steps[i].Publish? && AsksSync(steps[..i]) ==> |Asked(steps[..i])| <= m
    ensures forall k :: ReadBack(wal, files, walId, k)
                     == LastValue(WritesOf(run[0].logged) + WritesIn(Asked(steps[..n])[..m]), k)
  {
    hide Stepped, Opened, Shows, Survives, Inv, Recovered, Wal.Replay, Loaded, LastValue, Asked, LastBatch, ReadThrough;
    RunInv(run, steps, n);
    RunFollows(run, steps, n);
    var s, base := run[n], |run[0].logged|;
    var cut := StateRecovers(s, wal, files, walId);
    m := cut - base;
    RequestsCut(s, run[0].logged, Asked(steps[..n]), LastBatch(steps[..n]), cut);
    forall i | 0 <= i < n && steps[i].Publish? && AsksSync(steps[..i]) ensures |Asked(steps[..i])| <= m {
      SyncedBatchLogged(run, steps, i);
      LoggedGrows(run, steps, i + 1, n);
    }
    forall k ensures ReadBack(wal, files, walId, k)
                  == LastValue(WritesOf(run[0].logged) + WritesIn(Asked(steps[..n])[..m]), k) {
      ReadsLast(Loaded(Wal.Replay(wal).entries, walId), files, Ops(s)[..cut], k);
    }
  }

  lemma RequestsCut(s: State, before: seq<Op>, asked: seq<Request>, last: seq<Request>, cut: nat)
    requires Follows(s, before, asked, last) && |before| <= cut <= |Ops(s)|
    ensures cut - |before| <= |asked|
    ensures WritesOf(Ops(s)[..cut]) == WritesOf(before) + WritesIn(asked[..cut - |before|])
  {
    hide Unlogged;
    var all := WritesOf(before) + WritesIn(asked);
    assert WritesOf(Ops(s)[..cut]) == WritesOf(Ops(s))[..cut] == all[..cut];
    assert all[..cut] == WritesOf(before) + WritesIn(asked)[..cut - |before|];
    assert WritesIn(asked)[..cut - |before|] == WritesIn(asked[..cut - |before|]);
  }

  /** The bytes of the value logs, buffered ones included. */
  ghost function Contents(vlogs: map<nat, Vlog.Log>): map<nat, Bytes> {
    map id | id in vlogs :: Vlog.Whole(vlogs[id])
  }

  /** Between batches a get reads, for every key, what it was last set to by any request so far, synced or not. */
  lemma GetsFollow(run: seq<State>, steps: seq<Step>, n: nat, k: Key)
    requires IsRun(run, steps) && n < |run| && run[n].phase.Idle?
    ensures ReadThrough(run[n].mem, Contents(run[n].vlogs), k)
         == LastValue(WritesOf(run[0].logged) + WritesIn(Asked(steps[..n])), k)
  {
    hide Stepped, Opened, Shows, Asked, LastBatch, LastValue, ReadThrough, VlogsOk, OpOk, Durable, Written, Recovered;
    RunInv(run, steps, n);
    RunFollows(run, steps, n);
    var s := run[n];
    assert Ops(s)[..s.published] == Ops(s);
    assert WritesIn([]) == [] && WritesOf(Ops(s)) + [] == WritesOf(Ops(s));
    AllReadBack(s, k);
    ReadsLast(s.mem, Contents(s.vlogs), Ops(s), k);
  }

  lemma AllReadBack(s: State, k: Key)
    requires LogOk(s)
    ensures Recovered(Ops(s), Contents(s.vlogs), k)
  {
    hide OpOk, Wal.LogBytes, Vlog.ReadAt, Vlog.Names;
    LiveIsOp(Ops(s), k);
    if LiveIn(Ops(s), k).Some? {
      var op := LiveIn(Ops(s), k).value;
      var id := op.ptr.fileId;
      if op in s.logged {
        assert Durable(s.vlogs, op);
        assert s.vlogs[id].file <= Vlog.Whole(s.vlogs[id]);
        Vlog.NamesGrow(s.vlogs[id].file, Vlog.Whole(s.vlogs[id]), op.ptr, op.value.value);
      } else {
        assert Written(s.vlogs, op);
      }
      Vlog.NamedReads(Vlog.Whole(s.vlogs[id]), op.ptr, op.value.value);
    }
  }

  /** Between batches with nothing buffered, recovery shows exactly what the memtable showed. */
  lemma CleanRestart(run: seq<State>, steps: seq<Step>, n: nat, wal: Bytes, files: map<nat, Bytes>, walId: nat, k: Key)
    requires IsRun(run, steps) && n < |run| && run[n].phase.Idle? && run[n].queued == []
    requires Survives(run[n], wal, files)
    ensures Live(Lookup(Loaded(Wal.Replay(wal).entries, walId), k)) == Live(Lookup(run[n].mem, k))
  {
    hide IsRun, Survives, LogOk, VlogsOk, Wal.Replay, Wal.EntriesOf, Loaded, OpOk, LiveIn;
    RunInv(run, steps, n);
    var s := run[n];
    var m := StateRecovers(s, wal, files, walId);
    assert Ops(s)[..m] == Ops(s) == Ops(s)[..s.published];
  }
}
