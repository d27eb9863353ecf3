/** Point reads against concurrent writes, freezes, flushes and compactions. */
module Reads {
  import opened Keys
  import opened Lsm
  import opened Merge
  import opened Compaction
  import opened Outputs
  import opened Versions

  const SLOTS: nat := 4

  type Memtable = map<Key, Pointer>

  /** All memtables ever created, oldest first; the last is the active one. Frozen ones sit in a
      four-slot ring until their flush has been installed and the slot released. `hist` records
      the memtables after every change and `frozenAt` the moment each one was frozen. */
  datatype Mem = Mem(mems: seq<Memtable>, slots: seq<Option<nat>>, installed: nat, released: nat,
                     hist: seq<seq<Memtable>>, frozenAt: seq<nat>)

  /** `compacting` is the snapshot a running compaction merges from, `seen` the tables that were there then, and
      `taken` the numbers it has taken for its outputs. */
  datatype Tree = Tree(version: Version, tables: Tables, next: nat, flushing: Option<nat>,
                       compacting: Option<Version>, seen: Tables, taken: set<nat>)

  /** A reader: pointers taken under the lock, active memtable probed, ring probed, done.
      `since` and `until` are positions in the history; `low` is the oldest memtable it holds. */
  datatype Reader =
    | Snapped(key: Key, act: nat, slots: seq<Option<nat>>, low: nat, since: nat)
    | MissedActive(key: Key, act: nat, slots: seq<Option<nat>>, low: nat, since: nat)
    | MissedRing(key: Key, act: nat, low: nat, since: nat)
    | Finished(key: Key, since: nat, until: nat, result: Option<Pointer>)

  datatype State = State(base: Key -> Option<Pointer>, mem: Mem, tree: Tree, readers: map<nat, Reader>)

  // ----------------------------------------------------------- what is current

  /** The newest pointer for a key over a list of memtables, then the base. */
  ghost function Overlay(base: Key -> Option<Pointer>, ms: seq<Memtable>, k: Key): Option<Pointer> {
    if ms == [] then base(k)
    else if k in ms[|ms| - 1] then Some(ms[|ms| - 1][k])
    else Overlay(base, ms[..|ms| - 1], k)
  }

  /** The value a key had at moment `t`. */
  ghost function At(s: State, t: nat, k: Key): Option<Pointer>
    requires t < |s.mem.hist|
  {
    Live(Overlay(s.base, s.mem.hist[t], k))
  }

  // --------------------------------------------------------------- the ring

  function MemGet(m: Memtable, k: Key): Option<Pointer> {
    if k in m then Some(m[k]) else None
  }

  /** Probes the ring from its `i`-th newest slot on. */
  function RingGet(mems: seq<Memtable>, slots: seq<Option<nat>>, idx: nat, k: Key, i: nat): Option<Pointer>
    requires Dereferences(mems, slots)
    decreases SLOTS - i
  {
    if i >= SLOTS || idx <= i then None
    else
      var slot := slots[(idx - 1 - i) % SLOTS];
      OrElse(if slot.Some? then MemGet(mems[slot.value], k) else None, RingGet(mems, slots, idx, k, i + 1))
  }

  /** The slots hold exactly the frozen memtables `lo` to `hi`. */
  ghost predicate SlotsHold(slots: seq<Option<nat>>, lo: nat, hi: nat) {
    && |slots| == SLOTS && lo <= hi <= lo + SLOTS
    && (forall j: nat :: lo <= j < hi ==> slots[j % SLOTS] == Some(j))
    && (forall i :: 0 <= i < SLOTS && slots[i].Some? ==> lo <= slots[i].value < hi && slots[i].value % SLOTS == i)
  }

  /** `get_pointer`: active memtable, ring newest first, then the version. */
  method GetPointer(mems: seq<Memtable>, slots: seq<Option<nat>>, idx: nat, v: Version, tables: Tables, k: Key)
    returns (r: Option<Pointer>)
    requires mems != [] && Dereferences(mems, slots)
    ensures r == Live(OrElse(MemGet(mems[|mems| - 1], k),
                             OrElse(RingGet(mems, slots, idx, k, 0), VersionGet(v, tables, k))))
  {
    var act := mems[|mems| - 1];
    if k in act {
      return Live(Some(act[k]));
    }
    var i := 0;
    while i < SLOTS && idx > i
      invariant i <= SLOTS
      invariant RingGet(mems, slots, idx, k, 0) == RingGet(mems, slots, idx, k, i)
    {
      var slot := slots[(idx - 1 - i) % SLOTS];
      if slot.Some? && k in mems[slot.value] {
        return Live(Some(mems[slot.value][k]));
      }
      i := i + 1;
    }
    r := SearchVersion(v, tables, k);
  }

  lemma SameSlot(a: nat, b: nat)
    ensures a % SLOTS == b % SLOTS && b < a ==> a >= b + SLOTS
  {
  }

  lemma SlotOf(slots: seq<Option<nat>>, lo: nat, hi: nat, i: nat)
    requires SlotsHold(slots, lo, hi) && i < SLOTS && i < hi
    ensures slots[(hi - 1 - i) % SLOTS] == if hi - 1 - i >= lo then Some(hi - 1 - i) else None
  {
    var j := hi - 1 - i;
    var slot := slots[j % SLOTS];
    SameSlot(if slot.Some? then slot.value else j, j);
  }

  ghost predicate Dereferences(mems: seq<Memtable>, slots: seq<Option<nat>>) {
    |slots| == SLOTS && forall j :: 0 <= j < SLOTS && slots[j].Some? ==> slots[j].value < |mems|
  }

  lemma RingStep(mems: seq<Memtable>, slots: seq<Option<nat>>, lo: nat, hi: nat, k: Key, i: nat)
    requires SlotsHold(slots, lo, hi) && hi <= |mems| && i < SLOTS && i < hi
    ensures Dereferences(mems, slots)
    ensures var j := hi - 1 - i;
            RingGet(mems, slots, hi, k, i)
              == OrElse(if j >= lo then MemGet(mems[j], k) else None, RingGet(mems, slots, hi, k, i + 1))
  {
    SlotOf(slots, lo, hi, i);
  }

  /** `r` is what the newest of the memtables `lo` to `hi` holding the key holds. */
  ghost predicate NewestHit(mems: seq<Memtable>, lo: nat, hi: nat, k: Key, r: Option<Pointer>)
    requires hi <= |mems|
  {
    && (r.None? ==> forall j :: lo <= j < hi ==> k !in mems[j])
    && (r.Some? ==> exists j :: IsNewestHolder(mems, lo, hi, k, j) && r == Some(mems[j][k]))
  }

  ghost predicate IsNewestHolder(mems: seq<Memtable>, lo: nat, hi: nat, k: Key, j: int)
    requires hi <= |mems|
  {
    lo <= j < hi && k in mems[j] && forall i :: j < i < hi ==> k !in mems[i]
  }

  lemma OneNewer(mems: seq<Memtable>, lo: nat, j: nat, k: Key, rest: Option<Pointer>)
    requires j < |mems| && NewestHit(mems, lo, j, k, rest)
    ensures NewestHit(mems, lo, j + 1, k, OrElse(if j >= lo then MemGet(mems[j], k) else None, rest))
  {
    if j >= lo {
      if k in mems[j] {
        assert IsNewestHolder(mems, lo, j + 1, k, j);
      } else if rest.Some? {
        var n :| IsNewestHolder(mems, lo, j, k, n) && rest == Some(mems[n][k]);
        assert IsNewestHolder(mems, lo, j + 1, k, n);
      }
    }
  }

  /** Reading the ring newest first finds the newest frozen memtable that holds the key. */
  lemma {:induction false} RingFindsNewest(mems: seq<Memtable>, slots: seq<Option<nat>>, lo: nat, hi: nat, k: Key,
                                           i: nat)
    requires SlotsHold(slots, lo, hi) && hi <= |mems| && i <= SLOTS && i <= hi
    ensures Dereferences(mems, slots)
    ensures NewestHit(mems, lo, hi - i, k, RingGet(mems, slots, hi, k, i))
    decreases SLOTS - i
  {
    RingEnd(mems, slots, lo, hi, k, i);
    hide RingGet, SlotsHold, Dereferences, OrElse, MemGet;
    if i < SLOTS && i < hi {
      RingStep(mems, slots, lo, hi, k, i);
      RingFindsNewest(mems, slots, lo, hi, k, i + 1);
      OneNewer(mems, lo, hi - 1 - i, k, RingGet(mems, slots, hi, k, i + 1));
    }
  }

  lemma RingEnd(mems: seq<Memtable>, slots: seq<Option<nat>>, lo: nat, hi: nat, k: Key, i: nat)
    requires SlotsHold(slots, lo, hi) && hi <= |mems| && i <= SLOTS && i <= hi
    ensures Dereferences(mems, slots)
    ensures i == SLOTS || i == hi ==> RingGet(mems, slots, hi, k, i).None? && hi - i <= lo
  {
  }

  // -------------------------------------------------------------- invariants

  ghost predicate MemOk(m: Mem) {
    && m.mems != []
    && m.released <= m.installed <= m.released + 1 && m.installed <= |m.mems| - 1
    && SlotsHold(m.slots, m.released, |m.mems| - 1)
    && m.hist != [] && m.hist[|m.hist| - 1] == m.mems
    && |m.frozenAt| == |m.mems| - 1
    && (forall j :: 0 <= j < |m.frozenAt| ==>
          m.frozenAt[j] < |m.hist| && m.hist[m.frozenAt[j]] == m.mems[..j + 1])
  }

  ghost predicate TreeOk(t: Tree) {
    && WellFormed(t.version, t.tables) && NumbersUpTo(t.tables, t.next) && TakenOk(t)
    && (t.flushing.Some? ==> FreshForFlush(t, t.flushing.value))
    && (t.compacting.Some? ==> SnapshotOk(t, t.compacting.value))
  }

  /** The compaction's numbers are its own. */
  ghost predicate TakenOk(t: Tree) {
    && t.taken !! t.tables.Keys && (forall n :: n in t.taken ==> n <= t.next)
    && (t.flushing.Some? ==> t.flushing.value !in t.taken)
  }

  /** Only flushes have been installed since the running compaction took its snapshot. */
  ghost predicate SnapshotOk(t: Tree, snap: Version) {
    && WellFormed(snap, t.seen) && Extends(t.seen, t.tables)
    && exists newer :: FlushedSince(snap, t.version, newer)
  }

  /** A flush number taken earlier is unused and above everything on level 0. */
  ghost predicate FreshForFlush(t: Tree, n: nat) {
    n !in t.tables && n <= t.next && forall f :: f in t.version[0] ==> f.number < n
  }

  /** The tree shows exactly the flushed memtables over the base. */
  ghost predicate Agrees(s: State) {
    s.mem.installed <= |s.mem.mems| &&
    forall k :: Live(VersionGet(s.tree.version, s.tree.tables, k))
             == Live(Overlay(s.base, s.mem.mems[..s.mem.installed], k))
  }

  ghost predicate KeysWithin(a: Memtable, b: Memtable) {
    a.Keys <= b.Keys
  }

  /** What a reader in progress can rely on. */
  ghost predicate Holding(m: Mem, act: nat, low: nat, since: nat) {
    && low <= act < |m.mems| && since < |m.hist| && low <= m.released
    && |m.hist[since]| == act + 1
    && m.hist[since][..act] == m.mems[..act]
    && KeysWithin(m.hist[since][act], m.mems[act])
    && (forall j :: act <= j < |m.frozenAt| ==> since <= m.frozenAt[j])
  }

  ghost predicate ReaderOk(s: State, r: Reader) {
    match r
    case Snapped(k, act, slots, low, since) =>
      SlotsHold(slots, low, act) && Holding(s.mem, act, low, since)
    case MissedActive(k, act, slots, low, since) =>
      SlotsHold(slots, low, act) && Holding(s.mem, act, low, since) && k !in s.mem.hist[since][act]
    case MissedRing(k, act, low, since) =>
      && Holding(s.mem, act, low, since) && k !in s.mem.hist[since][act]
      && (forall j :: low <= j < act ==> k !in s.mem.mems[j])
    case Finished(k, since, until, result) =>
      Linearized(s, k, since, until, result)
  }

  /** The result was the current value at some moment between the first and last step of the read. */
  ghost predicate Linearized(s: State, k: Key, since: nat, until: nat, result: Option<Pointer>) {
    until < |s.mem.hist| && exists t :: since <= t <= until && At(s, t, k) == result
  }

  ghost predicate Inv(s: State) {
    && MemOk(s.mem) && TreeOk(s.tree) && Agrees(s)
    && forall tid :: tid in s.readers ==> ReaderOk(s, s.readers[tid])
  }

  // ------------------------------------------------------------------- steps

  datatype Step =
    | Put(key: Key, ptr: Pointer)
    | Freeze
    | FlushBegin
    | FlushInstall(entries: seq<Entry>)
    | SlotRelease
    | CompactBegin
    | CompactNumber
    | CompactCommit(plan: Plan, outputs: Tables)
    | ReadSnap(tid: nat, key: Key)
    | ReadActive(tid: nat)
    | ReadRing(tid: nat)
    | ReadVersion(tid: nat)

  /** The sorted entries a flush writes for a memtable. */
  ghost predicate EntriesOf(entries: seq<Entry>, m: Memtable) {
    Sorted(entries) && forall k :: Find(entries, k) == MemGet(m, k)
  }

  function FlushedFile(n: nat, entries: seq<Entry>): FileMeta
    requires entries != []
  {
    FileMeta(n, ChunkBytes(entries) + 24, entries[0].key, entries[|entries| - 1].key)
  }

  ghost predicate Enabled(s: State, step: Step) {
    var m, t := s.mem, s.tree;
    match step
    case Put(_, _) => m.mems != []
    case Freeze => m.mems != [] && |m.slots| == SLOTS && m.slots[(|m.mems| - 1) % SLOTS].None?
    case FlushBegin => t.flushing.None? && m.released == m.installed && m.installed < |m.mems| - 1
    case FlushInstall(entries) =>
      t.flushing.Some? && m.installed < |m.mems| - 1 && m.released == m.installed
      && EntriesOf(entries, m.mems[m.installed])
    case SlotRelease => m.released < m.installed && |m.slots| == SLOTS
    case CompactBegin => t.compacting.None?
    case CompactNumber => t.compacting.Some?
    case CompactCommit(plan, outputs) => CanCommit(t, plan, outputs)
    case ReadSnap(tid, _) => tid !in s.readers && m.mems != [] && m.hist != []
    case ReadActive(tid) => tid in s.readers && s.readers[tid].Snapped? && s.readers[tid].act < |m.mems| && m.hist != []
    case ReadRing(tid) =>
      && tid in s.readers && s.readers[tid].MissedActive? && m.hist != []
      && Dereferences(m.mems, s.readers[tid].slots)
    case ReadVersion(tid) => tid in s.readers && s.readers[tid].MissedRing? && m.hist != []
  }

  /** The tree after a flush commits; an empty memtable leaves it alone. */
  function Installed(t: Tree, entries: seq<Entry>): Tree
    requires t.flushing.Some?
  {
    if entries == [] then t.(flushing := None)
    else
      t.(version := Apply(FlushEdit(FlushedFile(t.flushing.value, entries)), t.version),
         tables := t.tables[t.flushing.value := entries], flushing := None)
  }

  function CommittedTree(t: Tree, plan: Plan, outputs: Tables): Tree {
    t.(version := Apply(PlanEdit(plan), t.version), tables := t.tables + outputs, compacting := None, taken := {})
  }

  /** The state after an enabled step. */
  ghost function Do(s: State, step: Step): State
    requires Enabled(s, step)
  {
    var m, t := s.mem, s.tree;
    var last := |m.mems| - 1;
    match step
    case Put(k, p) =>
      var mems := m.mems[last := m.mems[last][k := p]];
      s.(mem := m.(mems := mems, hist := m.hist + [mems]))
    case Freeze =>
      var mems := m.mems + [map[]];
      s.(mem := m.(mems := mems, slots := m.slots[last % SLOTS := Some(last)],
                   frozenAt := m.frozenAt + [if |m.hist| > 0 then |m.hist| - 1 else 0], hist := m.hist + [mems]))
    case FlushBegin => s.(tree := t.(flushing := Some(t.next + 1), next := t.next + 1))
    case FlushInstall(entries) =>
      s.(tree := Installed(t, entries), mem := m.(installed := m.installed + 1))
    case SlotRelease => s.(mem := m.(slots := m.slots[m.released % SLOTS := None], released := m.released + 1))
    case CompactBegin => s.(tree := t.(compacting := Some(t.version), seen := t.tables, taken := {}))
    case CompactNumber => s.(tree := t.(next := t.next + 1, taken := t.taken + {t.next + 1}))
    case CompactCommit(plan, outputs) => s.(tree := CommittedTree(t, plan, outputs))
    case ReadSnap(tid, k) =>
      s.(readers := s.readers[tid := Snapped(k, last, m.slots, m.released, |m.hist| - 1)])
    case ReadActive(tid) =>
      var r := s.readers[tid];
      var r' := if r.key in m.mems[r.act]
                then Finished(r.key, r.since, |m.hist| - 1, Live(Some(m.mems[r.act][r.key])))
                else MissedActive(r.key, r.act, r.slots, r.low, r.since);
      s.(readers := s.readers[tid := r'])
    case ReadRing(tid) =>
      var r := s.readers[tid];
      var hit := RingGet(m.mems, r.slots, r.act, r.key, 0);
      var r' := if hit.Some? then Finished(r.key, r.since, |m.hist| - 1, Live(hit))
                else MissedRing(r.key, r.act, r.low, r.since);
      s.(readers := s.readers[tid := r'])
    case ReadVersion(tid) =>
      var r := s.readers[tid];
      s.(readers := s.readers[tid := Finished(r.key, r.since, |m.hist| - 1,
                                              Live(VersionGet(t.version, t.tables, r.key)))])
  }

  // ---------------------------------------------------- memtables keep their shape

  lemma {:induction false} PutKeepsMem(s: State, k: Key, p: Pointer)
    requires MemOk(s.mem)
    ensures MemOk(Do(s, Put(k, p)).mem)
  {
    hide SlotsHold;
    var m, m' := s.mem, Do(s, Put(k, p)).mem;
    forall j | 0 <= j < |m'.frozenAt| ensures m'.hist[m'.frozenAt[j]] == m'.mems[..j + 1] {
      assert m'.mems[..j + 1] == m.mems[..j + 1];
    }
  }

  lemma {:induction false} FreezeKeepsMem(s: State)
    requires MemOk(s.mem) && Enabled(s, Freeze)
    ensures MemOk(Do(s, Freeze).mem)
  {
    var m, m' := s.mem, Do(s, Freeze).mem;
    RingAccepts(m.slots, m.released, |m.mems| - 1);
    hide SlotsHold;
    forall j | 0 <= j < |m'.frozenAt| ensures m'.frozenAt[j] < |m'.hist|
                                              && m'.hist[m'.frozenAt[j]] == m'.mems[..j + 1] {
      assert m'.mems[..j + 1] == m.mems[..j + 1];
      if j == |m.mems| - 1 {
        assert m.mems[..j + 1] == m.mems;
      }
    }
  }

  lemma RingAccepts(slots: seq<Option<nat>>, lo: nat, hi: nat)
    requires SlotsHold(slots, lo, hi) && slots[hi % SLOTS].None?
    ensures SlotsHold(slots[hi % SLOTS := Some(hi)], lo, hi + 1)
  {
    assert (lo + SLOTS) % SLOTS == lo % SLOTS;
    assert lo < hi ==> slots[lo % SLOTS] == Some(lo);
    forall j: nat | lo <= j < hi ensures j % SLOTS != hi % SLOTS {
      SameSlot(hi, j);
    }
  }

  lemma RingFrees(slots: seq<Option<nat>>, lo: nat, hi: nat)
    requires SlotsHold(slots, lo, hi) && lo < hi
    ensures SlotsHold(slots[lo % SLOTS := None], lo + 1, hi)
  {
    forall j: nat | lo < j < hi ensures j % SLOTS != lo % SLOTS {
      SameSlot(j, lo);
    }
    assert slots[lo % SLOTS] == Some(lo);
  }

  lemma {:induction false} MemStep(s: State, step: Step)
    requires MemOk(s.mem) && Enabled(s, step)
    ensures MemOk(Do(s, step).mem)
  {
    match step
    case Put(k, p) => PutKeepsMem(s, k, p);
    case Freeze => FreezeKeepsMem(s);
    case SlotRelease => RingFrees(s.mem.slots, s.mem.released, |s.mem.mems| - 1);
    case FlushInstall(entries) =>
    case _ =>
  }

  // ---------------------------------------------- the tree keeps its invariants

  lemma {:induction false} InstallKeepsTree(t: Tree, entries: seq<Entry>, k: Key)
    requires TreeOk(t) && t.flushing.Some? && Sorted(entries) && entries != []
    ensures var t' := Installed(t, entries);
            && TreeOk(t')
            && VersionGet(t'.version, t'.tables, k) == OrElse(Find(entries, k), VersionGet(t.version, t.tables, k))
  {
    hide VersionGet, Find;
    var f := FlushedFile(t.flushing.value, entries);
    var tables := t.tables[f.number := entries];
    assert Extends(t.tables, tables);
    WellFormedFrame(t.version, t.tables, tables);
    assert TableOk(f, tables);
    FlushInstalls(t.version, tables, f);
    FlushMeaning(t.version, tables, f, k);
    VersionGetFrame(t.version, t.tables, tables, k);
    if t.compacting.Some? {
      var snap := t.compacting.value;
      var newer :| FlushedSince(snap, t.version, newer);
      FlushOnSnapshot(snap, t.version, newer, f);
    }
  }

  lemma {:induction false} FlushOnSnapshot(snap: Version, v: Version, newer: seq<FileMeta>, f: FileMeta)
    requires FlushedSince(snap, v, newer)
    ensures FlushedSince(snap, v[0 := [f] + v[0]], [f] + newer)
  {
    assert [f] + (newer + snap[0]) == [f] + newer + snap[0];
  }

  /** What a finished merge brings: outputs under numbers it took, good over the tables its snapshot saw. */
  ghost predicate CanCommit(t: Tree, plan: Plan, outputs: Tables) {
    t.compacting.Some? && outputs.Keys <= t.taken && PlanOk(plan, t.compacting.value, t.seen + outputs)
  }

  /** The tables of a directory that another did not have. */
  function NewTables(t1: Tables, t2: Tables): Tables {
    map n | n in t2 && n !in t1 :: t2[n]
  }

  /** What `PrepareCompaction` leaves meets the commit's condition, whatever was flushed meanwhile. */
  lemma {:induction false} PreparedCanCommit(t: Tree, plan: Plan, after: Tables)
    requires t.compacting.Some? && Extends(t.seen, after) && PlanOk(plan, t.compacting.value, after)
    requires NewTables(t.seen, after).Keys <= t.taken
    ensures CanCommit(t, plan, NewTables(t.seen, after))
  {
    hide PlanOk;
    assert t.seen + NewTables(t.seen, after) == after;
  }

  lemma {:induction false} CommittedTaken(t: Tree, plan: Plan, outputs: Tables)
    ensures TakenOk(CommittedTree(t, plan, outputs))
  {
    hide Apply;
  }

  /** Whatever was flushed meanwhile, the outputs' numbers are unused. */
  lemma {:induction false} OutputsFresh(t: Tree, plan: Plan, outputs: Tables)
    requires TreeOk(t) && CanCommit(t, plan, outputs)
    ensures outputs.Keys !! t.tables.Keys && NumbersUpTo(t.tables + outputs, t.next)
    ensures t.flushing.Some? ==> t.flushing.value !in outputs
  {
    hide PlanOk, WellFormed;
  }

  /** At commit time the plan is good over all tables, those flushed since the snapshot included. */
  lemma {:induction false} PlanAtCommit(t: Tree, plan: Plan, outputs: Tables)
    requires TreeOk(t) && CanCommit(t, plan, outputs)
    ensures var tables := t.tables + outputs;
            && Extends(t.tables, tables) && WellFormed(t.version, tables) && WellFormed(t.compacting.value, tables)
            && PlanOk(plan, t.compacting.value, tables)
  {
    OutputsFresh(t, plan, outputs);
    hide PlanOk, WellFormed, NumbersUpTo;
    var snap, tables := t.compacting.value, t.tables + outputs;
    DisjointExtends(t.tables, outputs);
    assert Extends(t.seen, t.seen + outputs) by { SeenApart(t, outputs); }
    assert Extends(t.seen + outputs, tables);
    WellFormedFrame(snap, t.seen, t.seen + outputs);
    PlanFrame(plan, snap, t.seen + outputs, tables);
    WellFormedFrame(snap, t.seen + outputs, tables);
    WellFormedFrame(t.version, t.tables, tables);
  }

  lemma {:induction false} SeenApart(t: Tree, outputs: Tables)
    requires Extends(t.seen, t.tables) && outputs.Keys !! t.tables.Keys
    ensures Extends(t.seen, t.seen + outputs)
  {
    forall n | n in t.seen ensures n !in outputs {
      assert n in t.tables.Keys;
    }
  }

  lemma {:induction false} CommitKeepsTree(t: Tree, plan: Plan, outputs: Tables)
    requires TreeOk(t) && CanCommit(t, plan, outputs)
    ensures TreeOk(CommittedTree(t, plan, outputs))
  {
    OutputsFresh(t, plan, outputs);
    CommittedTaken(t, plan, outputs);
    hide PlanOk, Apply, WellFormed, NumbersUpTo, Committed, TakenOk;
    var snap := t.compacting.value;
    var tables := t.tables + outputs;
    PlanAtCommit(t, plan, outputs);
    hide Extends, FlushedSince;
    var newer :| FlushedSince(snap, t.version, newer);
    CompactionInstalls(plan, snap, t.version, tables, newer);
    if t.flushing.Some? {
      CommitKeepsFresh(t, plan, snap, newer, tables, t.flushing.value);
      assert FreshForFlush(CommittedTree(t, plan, outputs), t.flushing.value);
    }
  }

  lemma {:induction false} CommitKeepsView(t: Tree, plan: Plan, outputs: Tables, k: Key)
    requires TreeOk(t) && CanCommit(t, plan, outputs)
    ensures var t' := CommittedTree(t, plan, outputs);
            Live(VersionGet(t'.version, t'.tables, k)) == Live(VersionGet(t.version, t.tables, k))
  {
    hide PlanOk, VersionGet, Apply, WellFormed, NumbersUpTo;
    var snap := t.compacting.value;
    var tables := t.tables + outputs;
    PlanAtCommit(t, plan, outputs);
    hide Extends, FlushedSince;
    var newer :| FlushedSince(snap, t.version, newer);
    CompactionPreserves(plan, snap, t.version, tables, newer, k);
    VersionGetFrame(t.version, t.tables, tables, k);
  }

  lemma DisjointExtends(t: Tables, outputs: Tables)
    requires outputs.Keys !! t.Keys
    ensures Extends(t, t + outputs)
  {
    forall n | n in t ensures n in t + outputs && (t + outputs)[n] == t[n] {
      assert n !in outputs.Keys;
    }
  }

  /** A compaction leaves level 0 with files it already had. */
  lemma {:induction false} CommitKeepsFresh(t: Tree, plan: Plan, snap: Version, newer: seq<FileMeta>, tables: Tables,
                                            n: nat)
    requires FreshForFlush(t, n) && PlanOk(plan, snap, tables) && FlushedSince(snap, t.version, newer)
    requires |plan.src| <= |t.version[plan.source]|
    requires Apply(PlanEdit(plan), t.version) == Committed(plan, snap, t.version)
    ensures forall f :: f in Apply(PlanEdit(plan), t.version)[0] ==> f.number < n
  {
    hide Apply, ApplyLevel;
  }

  /** Every step keeps the tree well formed: level order, disjointness, fresh numbers. */
  lemma {:induction false} TreeStep(s: State, step: Step)
    requires TreeOk(s.tree) && Enabled(s, step)
    ensures TreeOk(Do(s, step).tree)
  {
    hide WellFormed, VersionGet, Find, PlanOk, Apply, CanCommit, Installed, CommittedTree;
    match step
    case FlushInstall(entries) =>
      if entries == [] { EmptyInstall(s.tree); } else { InstallKeepsTree(s.tree, entries, []); }
    case CompactCommit(plan, outputs) => CommitKeepsTree(s.tree, plan, outputs);
    case CompactBegin =>
      assert Extends(s.tree.tables, s.tree.tables);
      assert FlushedSince(s.tree.version, s.tree.version, []) by { assert [] + s.tree.version[0] == s.tree.version[0]; }
    case FlushBegin => NextIsFresh(s.tree);
    case _ =>
  }

  lemma {:induction false} NextIsFresh(t: Tree)
    requires TreeOk(t)
    ensures forall f :: f in t.version[0] ==> f.number <= t.next
  {
    LevelNumbers(t.version, t.tables, 0);
  }

  // ------------------------------------------ the tree shows the flushed memtables

  lemma {:induction false} AgreesStep(s: State, step: Step)
    requires MemOk(s.mem) && TreeOk(s.tree) && Agrees(s) && Enabled(s, step)
    ensures Agrees(Do(s, step))
  {
    hide MemOk, TreeOk, VersionGet, SlotsHold, PlanOk, Apply, Find, CanCommit, Installed, CommittedTree;
    MemStep(s, step);
    var s' := Do(s, step);
    assert s'.mem.installed <= |s'.mem.mems| by { InstalledInRange(s'.mem); }
    InstalledInRange(s.mem);
    forall k ensures Live(VersionGet(s'.tree.version, s'.tree.tables, k))
                  == Live(Overlay(s.base, s'.mem.mems[..s'.mem.installed], k))
    {
      match step
      case FlushInstall(entries) =>
        var i := s.mem.installed;
        assert s.mem.mems[..i + 1][..i] == s.mem.mems[..i];
        assert Find(entries, k) == MemGet(s.mem.mems[i], k);
        if entries != [] {
          InstallKeepsTree(s.tree, entries, k);
        } else {
          FindNothing(k);
          EmptyInstall(s.tree);
        }
      case CompactCommit(plan, outputs) => CommitKeepsView(s.tree, plan, outputs, k);
      case Put(_, _) => assert s'.mem.mems[..s.mem.installed] == s.mem.mems[..s.mem.installed];
      case Freeze => assert s'.mem.mems[..s.mem.installed] == s.mem.mems[..s.mem.installed];
      case _ =>
    }
  }

  lemma {:induction false} EmptyInstall(t: Tree)
    requires t.flushing.Some?
    ensures Installed(t, []) == t.(flushing := None)
  {
  }

  lemma FindNothing(k: Key)
    ensures Find([], k).None?
  {
  }

  lemma InstalledInRange(m: Mem)
    requires MemOk(m)
    ensures m.installed <= |m.mems| - 1
  {
  }

  // ---------------------------------------------------------- overlay lookups

  lemma {:induction false} OverlaySkip(base: Key -> Option<Pointer>, ms: seq<Memtable>, k: Key, n: nat)
    requires n <= |ms| && forall j :: n <= j < |ms| ==> k !in ms[j]
    ensures Overlay(base, ms, k) == Overlay(base, ms[..n], k)
  {
    if n == |ms| {
      assert ms[..n] == ms;
    } else {
      var front := ms[..|ms| - 1];
      assert forall j :: n <= j < |front| ==> k !in front[j];
      OverlaySkip(base, front, k, n);
      assert front[..n] == ms[..n];
    }
  }

  lemma OverlayHit(base: Key -> Option<Pointer>, ms: seq<Memtable>, k: Key, j: nat)
    requires IsNewestHolder(ms, 0, |ms|, k, j)
    ensures Overlay(base, ms, k) == Some(ms[j][k])
  {
    OverlaySkip(base, ms, k, j + 1);
  }

  // ------------------------------------------------------------------ readers

  /** Nothing a reader in progress relies on is disturbed by any step. */
  lemma {:induction false} HoldingStable(s: State, step: Step, act: nat, low: nat, since: nat)
    requires MemOk(s.mem) && Enabled(s, step) && Holding(s.mem, act, low, since)
    ensures Holding(Do(s, step).mem, act, low, since)
    ensures Do(s, step).mem.hist[since] == s.mem.hist[since]
    ensures forall j :: 0 <= j < act ==> Do(s, step).mem.mems[j] == s.mem.mems[j]
  {
    hide TreeOk, SlotsHold, CanCommit, Installed, CommittedTree, RingGet, VersionGet, Dereferences;
    var m, m' := s.mem, Do(s, step).mem;
    assert m'.mems[..act] == m.mems[..act];
  }

  lemma {:induction false} HistoryGrows(s: State, step: Step)
    requires Enabled(s, step)
    ensures s.mem.hist <= Do(s, step).mem.hist && Do(s, step).base == s.base
  {
    hide TreeOk, SlotsHold, CanCommit, Installed, CommittedTree, RingGet, VersionGet, Dereferences;
  }

  lemma {:induction false} ReaderStable(s: State, step: Step, r: Reader)
    requires MemOk(s.mem) && Enabled(s, step) && ReaderOk(s, r)
    ensures ReaderOk(Do(s, step), r)
  {
    hide Do, Enabled, MemOk, Holding, SlotsHold, Overlay;
    if r.Finished? {
      HistoryGrows(s, step);
      var t :| r.since <= t <= r.until && At(s, t, r.key) == r.result;
      assert At(Do(s, step), t, r.key) == r.result;
    } else {
      HoldingStable(s, step, r.act, r.low, r.since);
      HoldingBounds(s.mem, r.act, r.low, r.since);
    }
  }

  lemma HoldingBounds(m: Mem, act: nat, low: nat, since: nat)
    requires Holding(m, act, low, since)
    ensures act < |m.mems| && since < |m.hist| && |m.hist[since]| == act + 1
  {
  }

  lemma {:induction false} SnapOk(s: State, tid: nat, k: Key)
    requires Inv(s) && Enabled(s, ReadSnap(tid, k))
    ensures ReaderOk(s, Snapped(k, |s.mem.mems| - 1, s.mem.slots, s.mem.released, |s.mem.hist| - 1))
  {
  }

  /** A hit in the memtable that was active: current now, or at the moment it was frozen. */
  lemma {:induction false} ActiveHit(s: State, r: Reader)
    requires MemOk(s.mem) && r.Snapped? && ReaderOk(s, r) && r.key in s.mem.mems[r.act]
    ensures Linearized(s, r.key, r.since, |s.mem.hist| - 1, Live(Some(s.mem.mems[r.act][r.key])))
  {
    var m := s.mem;
    var t := if r.act == |m.mems| - 1 then |m.hist| - 1 else m.frozenAt[r.act];
    assert m.hist[t] == m.mems[..r.act + 1] by {
      if r.act == |m.mems| - 1 { assert m.mems[..r.act + 1] == m.mems; }
    }
    assert Overlay(s.base, m.hist[t], r.key) == Some(m.mems[r.act][r.key]);
    assert At(s, t, r.key) == Live(Some(m.mems[r.act][r.key]));
  }

  /** A hit in the ring was current when the pointers were taken. */
  lemma {:induction false} RingHit(s: State, r: Reader, hit: Pointer)
    requires MemOk(s.mem) && r.MissedActive? && ReaderOk(s, r)
    requires Dereferences(s.mem.mems, r.slots) && RingGet(s.mem.mems, r.slots, r.act, r.key, 0) == Some(hit)
    ensures Linearized(s, r.key, r.since, |s.mem.hist| - 1, Live(Some(hit)))
  {
    hide RingGet, SlotsHold, Dereferences;
    var m := s.mem;
    var taken := m.hist[r.since];
    RingFindsNewest(m.mems, r.slots, r.low, r.act, r.key, 0);
    var j :| IsNewestHolder(m.mems, r.low, r.act, r.key, j) && Some(hit) == Some(m.mems[j][r.key]);
    forall i | 0 <= i < r.act ensures taken[i] == m.mems[i] {
      assert taken[..r.act][i] == m.mems[..r.act][i];
    }
    assert IsNewestHolder(taken, 0, |taken|, r.key, j);
    OverlayHit(s.base, taken, r.key, j);
    assert At(s, r.since, r.key) == Live(Some(hit));
  }

  /** The newest installed memtable that was still open at the snapshot and holds the key, if any. */
  lemma NewestInstalled(m: Mem, k: Key, act: nat, n: nat) returns (j: int)
    requires n <= |m.mems|
    ensures j < 0 ==> forall i :: act <= i < n ==> k !in m.mems[i]
    ensures j >= 0 ==> IsNewestHolder(m.mems, act, n, k, j)
  {
    j := n - 1;
    while j >= act && k !in m.mems[j]
      invariant -1 <= j < n
      invariant forall i :: j < i < n && act <= i ==> k !in m.mems[i]
    {
      j := j - 1;
    }
    if j < act {
      j := -1;
    }
  }

  /** After missing every memtable, whatever the version then shows was current at some moment since. */
  lemma {:induction false} VersionHit(s: State, r: Reader)
    requires MemOk(s.mem) && Agrees(s) && r.MissedRing? && ReaderOk(s, r)
    ensures Linearized(s, r.key, r.since, |s.mem.hist| - 1,
                       Live(VersionGet(s.tree.version, s.tree.tables, r.key)))
  {
    hide SlotsHold, VersionGet;
    var m, k := s.mem, r.key;
    var flushed := m.mems[..m.installed];
    var j := NewestInstalled(m, k, r.act, m.installed);
    if j >= 0 {
      var t := m.frozenAt[j];
      assert m.hist[t] == m.mems[..j + 1];
      OverlayHit(s.base, m.mems[..j + 1], k, j);
      assert IsNewestHolder(flushed, 0, |flushed|, k, j);
      OverlayHit(s.base, flushed, k, j);
      assert At(s, t, k) == Live(Overlay(s.base, flushed, k));
    } else {
      var taken := m.hist[r.since];
      forall i | 0 <= i < r.act ensures taken[i] == m.mems[i] {
        assert taken[..r.act][i] == m.mems[..r.act][i];
      }
      OverlaySkip(s.base, taken, k, r.low);
      OverlaySkip(s.base, flushed, k, r.low);
      assert taken[..r.low] == flushed[..r.low];
      assert At(s, r.since, k) == Live(Overlay(s.base, flushed, k));
    }
  }

  /** The reader a step moves ends up in a good state. */
  lemma {:induction false} MovedReader(s: State, step: Step, tid: nat)
    requires Inv(s) && Enabled(s, step) && tid in Do(s, step).readers
    requires tid !in s.readers || Do(s, step).readers[tid] != s.readers[tid]
    ensures ReaderOk(s, Do(s, step).readers[tid])
  {
    hide TreeOk, SlotsHold, CanCommit, Installed, CommittedTree, VersionGet, RingGet, Linearized;
    match step
    case ReadSnap(_, k) => SnapOk(s, tid, k);
    case ReadActive(_) => ActiveMoved(s, step, tid);
    case ReadRing(_) => RingMoved(s, step, tid);
    case ReadVersion(_) => VersionHit(s, s.readers[tid]);
    case _ =>
  }

  lemma {:induction false} ActiveMoved(s: State, step: Step, tid: nat)
    requires Inv(s) && Enabled(s, step) && step == ReadActive(tid)
    ensures tid in Do(s, step).readers && ReaderOk(s, Do(s, step).readers[tid])
  {
    hide TreeOk, SlotsHold, CanCommit, Installed, CommittedTree, VersionGet, RingGet, Linearized;
    var r := s.readers[tid];
    if r.key in s.mem.mems[r.act] { ActiveHit(s, r); }
  }

  lemma {:induction false} RingMoved(s: State, step: Step, tid: nat)
    requires Inv(s) && Enabled(s, step) && step == ReadRing(tid)
    ensures tid in Do(s, step).readers && ReaderOk(s, Do(s, step).readers[tid])
  {
    hide TreeOk, SlotsHold, CanCommit, Installed, CommittedTree, VersionGet, RingGet, Linearized;
    var r := s.readers[tid];
    var hit := RingGet(s.mem.mems, r.slots, r.act, r.key, 0);
    if hit.Some? { RingHit(s, r, hit.value); } else { RingFindsNewest(s.mem.mems, r.slots, r.low, r.act, r.key, 0); }
  }

  lemma {:induction false} ReadersStep(s: State, step: Step)
    requires Inv(s) && Enabled(s, step)
    ensures var s' := Do(s, step); forall tid :: tid in s'.readers ==> ReaderOk(s', s'.readers[tid])
  {
    hide TreeOk, SlotsHold, Enabled, ReaderOk;
    var s' := Do(s, step);
    forall tid | tid in s'.readers ensures ReaderOk(s', s'.readers[tid]) {
      if tid in s.readers && s'.readers[tid] == s.readers[tid] {
        ReaderStable(s, step, s.readers[tid]);
      } else {
        MovedReader(s, step, tid);
        ReadsOnly(s, step, tid);
        ReaderDepends(s, s', s'.readers[tid]);
      }
    }
  }

  /** Steps that move a reader leave memory and tree alone. */
  lemma {:induction false} ReadsOnly(s: State, step: Step, tid: nat)
    requires Enabled(s, step) && tid in Do(s, step).readers
    requires tid !in s.readers || Do(s, step).readers[tid] != s.readers[tid]
    ensures Do(s, step).mem == s.mem && Do(s, step).base == s.base
  {
    hide CanCommit, Installed, CommittedTree, RingGet, VersionGet, Dereferences;
  }

  lemma {:induction false} ReaderDepends(s: State, s': State, r: Reader)
    requires s'.mem == s.mem && s'.base == s.base && ReaderOk(s, r)
    ensures ReaderOk(s', r)
  {
    if r.Finished? {
      var t :| r.since <= t <= r.until && At(s, t, r.key) == r.result;
      assert At(s', t, r.key) == r.result;
    }
  }

  // --------------------------------------------------------------- whole runs

  /** A freshly opened store: some recovered tree and memtable, nothing frozen, no reader. */
  ghost predicate Init(s: State) {
    && |s.mem.mems| == 1 && s.mem.slots == [None, None, None, None]
    && s.mem.installed == 0 && s.mem.released == 0 && s.mem.hist == [s.mem.mems] && s.mem.frozenAt == []
    && WellFormed(s.tree.version, s.tree.tables) && NumbersUpTo(s.tree.tables, s.tree.next)
    && s.tree.flushing.None? && s.tree.compacting.None? && s.tree.taken == {} && s.readers == map[]
    && forall k :: s.base(k) == VersionGet(s.tree.version, s.tree.tables, k)
  }

  ghost predicate Stepped(s: State, step: Step, s': State) {
    Enabled(s, step) && s' == Do(s, step)
  }

  /** An interleaving of any number of readers with the writer and background work: `steps[i]` leads from
      `run[i]` to the next state. */
  ghost predicate IsRun(run: seq<State>, steps: seq<Step>) {
    && |run| == |steps| + 1 && Init(run[0])
    && forall i :: 0 <= i < |steps| ==> Stepped(run[i], steps[i], run[i + 1])
  }

  lemma {:induction false} RunStep(run: seq<State>, steps: seq<Step>, n: nat)
    requires IsRun(run, steps) && n < |steps|
    ensures Stepped(run[n], steps[n], run[n + 1])
  {
    hide Stepped, Init;
  }

  lemma {:induction false} InvStep(s: State, step: Step)
    requires Inv(s) && Enabled(s, step)
    ensures Inv(Do(s, step))
  {
    hide Do, Enabled, MemOk, TreeOk, Agrees, ReaderOk;
    MemStep(s, step);
    TreeStep(s, step);
    AgreesStep(s, step);
    ReadersStep(s, step);
  }

  lemma {:induction false} RunInv(run: seq<State>, steps: seq<Step>, n: nat)
    requires IsRun(run, steps) && n < |run|
    ensures Inv(run[n])
  {
    hide Inv, Stepped, Init;
    if n == 0 {
      InitInv(run[0]);
    } else {
      RunInv(run, steps, n - 1);
      RunStep(run, steps, n - 1);
      StepInv(run[n - 1], steps[n - 1], run[n]);
    }
  }

  lemma {:induction false} StepInv(s: State, step: Step, s': State)
    requires Inv(s) && Stepped(s, step, s')
    ensures Inv(s')
  {
    hide Inv, Enabled, Do;
    InvStep(s, step);
  }

  lemma {:induction false} InitInv(s: State)
    requires Init(s)
    ensures Inv(s)
  {
    hide WellFormed, VersionGet;
    assert s.mem.mems[..0] == [];
  }

  // --------------------------------------------------- what the puts alone give

  /** The last pointer put for a key among some steps. */
  ghost function LastPut(steps: seq<Step>, k: Key): Option<Pointer> {
    if steps == [] then None
    else
      var step := steps[|steps| - 1];
      if step.Put? && step.key == k then Some(step.ptr) else LastPut(steps[..|steps| - 1], k)
  }

  /** What the store was opened with. */
  ghost function Opening(s: State, k: Key): Option<Pointer> {
    OrElse(if s.mem.mems != [] then MemGet(s.mem.mems[0], k) else None, VersionGet(s.tree.version, s.tree.tables, k))
  }

  /** What a get should return after some steps: the last put, or what the store was opened with. */
  ghost function Expected(s: State, steps: seq<Step>, k: Key): Option<Pointer> {
    Live(OrElse(LastPut(steps, k), Opening(s, k)))
  }

  /** What the store holds: the memtables not yet flushed, newest first, over the tree. */
  ghost function Shown(s: State, k: Key): Option<Pointer>
    requires s.mem.installed <= |s.mem.mems|
  {
    Live(Overlay(x => VersionGet(s.tree.version, s.tree.tables, x), s.mem.mems[s.mem.installed..], k))
  }

  lemma {:induction false} OverlaySplit(f: Key -> Option<Pointer>, g: Key -> Option<Pointer>, ms: seq<Memtable>, n: nat,
                                        k: Key)
    requires n <= |ms| && Live(g(k)) == Live(Overlay(f, ms[..n], k))
    ensures Live(Overlay(g, ms[n..], k)) == Live(Overlay(f, ms, k))
    decreases |ms|
  {
    if n == |ms| {
      assert ms[..n] == ms;
    } else {
      var last := |ms| - 1;
      assert ms[n..][..last - n] == ms[..last][n..] && ms[..last][..n] == ms[..n];
      OverlaySplit(f, g, ms[..last], n, k);
    }
  }

  /** What the store holds is what all memtables ever made, over what it was opened with, hold. */
  lemma {:induction false} ShownIsOverlay(s: State, k: Key)
    requires Inv(s)
    ensures s.mem.installed <= |s.mem.mems| && Shown(s, k) == Live(Overlay(s.base, s.mem.mems, k))
  {
    hide MemOk, TreeOk, ReaderOk, VersionGet;
    OverlaySplit(s.base, x => VersionGet(s.tree.version, s.tree.tables, x), s.mem.mems, s.mem.installed, k);
  }

  /** A put sets its key and no other; no other step changes what the store holds. */
  lemma {:induction false} StepShows(s: State, step: Step, k: Key)
    requires Inv(s) && Enabled(s, step)
    ensures var s' := Do(s, step);
            && s.mem.installed <= |s.mem.mems| && s'.mem.installed <= |s'.mem.mems|
            && Shown(s', k) == if step.Put? && step.key == k then Live(Some(step.ptr)) else Shown(s, k)
  {
    MemsStep(s, step, k);
    HistoryGrows(s, step);
    InvStep(s, step);
    hide Inv, Enabled, Do, Shown, Overlay;
    ShownIsOverlay(s, k);
    ShownIsOverlay(Do(s, step), k);
  }

  lemma {:induction false} MemsStep(s: State, step: Step, k: Key)
    requires MemOk(s.mem) && Enabled(s, step)
    ensures Overlay(s.base, Do(s, step).mem.mems, k)
         == if step.Put? && step.key == k then Some(step.ptr) else Overlay(s.base, s.mem.mems, k)
  {
    hide MemOk, CanCommit, Installed, CommittedTree, RingGet, VersionGet, Dereferences, EntriesOf;
    var mems, mems' := s.mem.mems, Do(s, step).mem.mems;
    if step.Put? {
      var last := |mems| - 1;
      assert mems'[..last] == mems[..last];
    } else if step.Freeze? {
      assert mems'[..|mems|] == mems;
    }
  }

  lemma {:induction false} RunShows(run: seq<State>, steps: seq<Step>, n: nat, k: Key)
    requires IsRun(run, steps) && n < |run|
    ensures run[n].mem.installed <= |run[n].mem.mems| && Shown(run[n], k) == Expected(run[0], steps[..n], k)
  {
    hide Inv, Stepped, Init, Shown, Opening;
    if n == 0 {
      assert steps[..0] == [];
      InitShows(run[0], k);
    } else {
      RunShows(run, steps, n - 1, k);
      RunInv(run, steps, n - 1);
      RunStep(run, steps, n - 1);
      StepShown(run[n - 1], steps[n - 1], run[n], k);
      assert steps[..n][..n - 1] == steps[..n - 1];
    }
  }

  lemma {:induction false} StepShown(s: State, step: Step, s': State, k: Key)
    requires Inv(s) && Stepped(s, step, s')
    ensures s.mem.installed <= |s.mem.mems| && s'.mem.installed <= |s'.mem.mems|
    ensures Shown(s', k) == if step.Put? && step.key == k then Live(Some(step.ptr)) else Shown(s, k)
  {
    hide Inv, Enabled, Do, Shown;
    StepShows(s, step, k);
  }

  lemma {:induction false} InitShows(s: State, k: Key)
    requires Init(s)
    ensures s.mem.installed <= |s.mem.mems| && Shown(s, k) == Live(Opening(s, k))
  {
    hide WellFormed, VersionGet;
    var ms := s.mem.mems[s.mem.installed..];
    assert ms == s.mem.mems && ms[..|ms| - 1] == [];
    assert Overlay(x => VersionGet(s.tree.version, s.tree.tables, x), [], k)
        == VersionGet(s.tree.version, s.tree.tables, k);
  }

  // ------------------------------------------------------------ reads in a run

  /** From its first step on a reader keeps its key and the moment it began. */
  lemma {:induction false} ReaderTracked(run: seq<State>, steps: seq<Step>, i: nat, j: nat, tid: nat, k: Key)
    requires IsRun(run, steps) && i < j < |run| && steps[i] == ReadSnap(tid, k)
    ensures tid in run[j].readers && run[j].readers[tid].key == k
    ensures |run[i].mem.hist| > 0 && run[j].readers[tid].since == |run[i].mem.hist| - 1
    ensures run[i].mem.hist <= run[j].mem.hist
  {
    hide Stepped, Init;
    RunStep(run, steps, j - 1);
    if i == j - 1 {
      ReadBegins(run[i], run[j], tid, k);
    } else {
      ReaderTracked(run, steps, i, j - 1, tid, k);
      ReaderKeeps(run[j - 1], steps[j - 1], run[j], tid);
    }
  }

  lemma {:induction false} ReadBegins(s: State, s': State, tid: nat, k: Key)
    requires Stepped(s, ReadSnap(tid, k), s')
    ensures tid in s'.readers && s'.readers[tid].key == k && |s.mem.hist| > 0
    ensures s'.readers[tid].since == |s.mem.hist| - 1 && s'.mem.hist == s.mem.hist
  {
  }

  lemma {:induction false} ReaderKeeps(s: State, step: Step, s': State, tid: nat)
    requires Stepped(s, step, s') && tid in s.readers
    ensures tid in s'.readers && s'.readers[tid].key == s.readers[tid].key
    ensures s'.readers[tid].since == s.readers[tid].since && s.mem.hist <= s'.mem.hist
  {
    hide CanCommit, Installed, CommittedTree, RingGet, VersionGet, Dereferences, EntriesOf;
  }

  lemma {:induction false} HistorySteps(s: State, step: Step, s': State)
    requires Stepped(s, step, s')
    ensures s.mem.hist <= s'.mem.hist && |s'.mem.hist| <= |s.mem.hist| + 1 && s'.base == s.base
  {
    hide CanCommit, Installed, CommittedTree, RingGet, VersionGet, Dereferences, EntriesOf;
  }

  /** Every moment of the history between two states of the run is the end of the history of one of the states. */
  lemma {:induction false} MomentInRun(run: seq<State>, steps: seq<Step>, i: nat, j: nat, m: nat) returns (t: nat)
    requires IsRun(run, steps) && i <= j < |run| && |run[i].mem.hist| <= m + 1 <= |run[j].mem.hist|
    ensures i <= t <= j && |run[t].mem.hist| == m + 1
    ensures run[t].mem.hist <= run[j].mem.hist && run[t].base == run[j].base
    decreases j
  {
    hide Stepped, Init;
    if |run[j].mem.hist| == m + 1 {
      t := j;
    } else {
      RunStep(run, steps, j - 1);
      HistorySteps(run[j - 1], steps[j - 1], run[j]);
      t := MomentInRun(run, steps, i, j - 1, m);
    }
  }

  lemma {:induction false} NowIsShown(s: State, k: Key)
    requires Inv(s)
    ensures s.mem.hist != [] && s.mem.installed <= |s.mem.mems| && At(s, |s.mem.hist| - 1, k) == Shown(s, k)
  {
    LastMoment(s.mem);
    hide Inv, Shown;
    ShownIsOverlay(s, k);
  }

  lemma LastMoment(m: Mem)
    requires MemOk(m)
    ensures m.hist != [] && m.hist[|m.hist| - 1] == m.mems
  {
    hide SlotsHold;
  }

  /** Lock-free get is linearizable: whatever runs beside it, a get of `k` that began at step `i` and is finished in
      state `j` returned what the puts up to some moment between the two give. */
  lemma {:induction false} GetLinearizable(run: seq<State>, steps: seq<Step>, i: nat, j: nat, tid: nat, k: Key)
    requires IsRun(run, steps) && i < j < |run| && steps[i] == ReadSnap(tid, k)
    requires tid in run[j].readers && run[j].readers[tid].Finished?
    ensures exists t :: i <= t <= j && run[j].readers[tid].result == Expected(run[0], steps[..t], k)
  {
    hide Stepped, Init, Inv, Shown, Expected;
    RunInv(run, steps, j);
    ReaderTracked(run, steps, i, j, tid, k);
    var s, r := run[j], run[j].readers[tid];
    var m := FinishedMoment(s, tid);
    var t := MomentInRun(run, steps, i, j, m);
    RunInv(run, steps, t);
    NowIsShown(run[t], k);
    RunShows(run, steps, t, k);
    assert At(run[t], m, k) == At(s, m, k);
  }

  lemma {:induction false} FinishedMoment(s: State, tid: nat) returns (m: nat)
    requires Inv(s) && tid in s.readers && s.readers[tid].Finished?
    ensures s.readers[tid].since <= m < |s.mem.hist| && At(s, m, s.readers[tid].key) == s.readers[tid].result
  {
    hide MemOk, TreeOk, Agrees, At;
    var r := s.readers[tid];
    assert ReaderOk(s, r);
    m :| r.since <= m <= r.until && At(s, m, r.key) == r.result;
  }

  /** A get that begins after a put, with no other put of the key by the time it is finished, returns that put. */
  lemma {:induction false} ReadsLastPut(run: seq<State>, steps: seq<Step>, w: nat, i: nat, j: nat, tid: nat)
    requires IsRun(run, steps) && w < i < j < |run| && steps[w].Put? && steps[i] == ReadSnap(tid, steps[w].key)
    requires forall x :: w < x < j ==> !(steps[x].Put? && steps[x].key == steps[w].key)
    requires tid in run[j].readers && run[j].readers[tid].Finished?
    ensures run[j].readers[tid].result == Live(Some(steps[w].ptr))
  {
    hide Stepped, Init, Opening;
    GetLinearizable(run, steps, i, j, tid, steps[w].key);
    var t :| i <= t <= j && run[j].readers[tid].result == Expected(run[0], steps[..t], steps[w].key);
    PutStands(steps[..t], w);
  }

  lemma {:induction false} PutStands(steps: seq<Step>, w: nat)
    requires w < |steps| && steps[w].Put?
    requires forall x :: w < x < |steps| ==> !(steps[x].Put? && steps[x].key == steps[w].key)
    ensures LastPut(steps, steps[w].key) == Some(steps[w].ptr)
  {
    if w < |steps| - 1 {
      PutStands(steps[..|steps| - 1], w);
    }
  }

  /** The steps since the last freeze. */
  ghost function SinceFreeze(steps: seq<Step>): seq<Step> {
    if steps == [] || steps[|steps| - 1].Freeze? then []
    else SinceFreeze(steps[..|steps| - 1]) + [steps[|steps| - 1]]
  }

  /** The active memtable holds the puts since the last freeze, and before the first what the store was opened with. */
  lemma {:induction false} ActiveHolds(run: seq<State>, steps: seq<Step>, n: nat, k: Key)
    requires IsRun(run, steps) && n < |run|
    ensures var mems := run[n].mem.mems;
            && mems != [] && run[0].mem.mems != []
            && MemGet(mems[|mems| - 1], k)
                 == OrElse(LastPut(SinceFreeze(steps[..n]), k),
                           if Freeze in steps[..n] then None else MemGet(run[0].mem.mems[0], k))
  {
    hide Stepped, Init, LastPut, SinceFreeze, MemGet;
    if n == 0 {
      assert steps[..0] == [];
      FirstActive(run[0], k);
    } else {
      ActiveHolds(run, steps, n - 1, k);
      RunStep(run, steps, n - 1);
      ActiveStep(run[n - 1], steps[n - 1], run[n], k);
      assert steps[..n] == steps[..n - 1] + [steps[n - 1]];
      SinceFreezeMore(steps[..n - 1], steps[n - 1], k);
    }
  }

  lemma {:induction false} FirstActive(s: State, k: Key)
    requires Init(s)
    ensures |s.mem.mems| == 1 && LastPut(SinceFreeze([]), k).None?
  {
    hide WellFormed, VersionGet;
  }

  lemma SinceFreezeMore(steps: seq<Step>, step: Step, k: Key)
    ensures LastPut(SinceFreeze(steps + [step]), k)
         == if step.Freeze? then None
            else if step.Put? && step.key == k then Some(step.ptr) else LastPut(SinceFreeze(steps), k)
  {
    assert (steps + [step])[..|steps|] == steps;
    var front := SinceFreeze(steps);
    assert (front + [step])[..|front|] == front;
  }

  lemma {:induction false} ActiveStep(s: State, step: Step, s': State, k: Key)
    requires Stepped(s, step, s') && s.mem.mems != []
    ensures var ms, ms' := s.mem.mems, s'.mem.mems;
            && ms' != []
            && MemGet(ms'[|ms'| - 1], k)
                 == if step.Freeze? then None
                    else if step.Put? && step.key == k then Some(step.ptr) else MemGet(ms[|ms| - 1], k)
  {
    hide CanCommit, Installed, CommittedTree, RingGet, VersionGet, Dereferences, EntriesOf;
  }

  /** Level invariant over whole runs. */
  lemma {:induction false} LevelsOverRuns(run: seq<State>, steps: seq<Step>, n: nat)
    requires IsRun(run, steps) && n < |run|
    ensures WellFormed(run[n].tree.version, run[n].tree.tables)
  {
    RunInv(run, steps, n);
  }
}
