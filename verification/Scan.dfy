/** Range scans: every source walked over the range and merged, the first source to hold a key winning. */
module Scan {
  import opened Keys
  import opened Lsm
  import opened Outputs
  import opened Reads

  predicate InWindow(k: Key, start: Key, end: Key) {
    AtMost(start, k) && AtMost(k, end)
  }

  // ---------------------------------------------------------- the merged map

  /** Adds a key to a sorted map unless it is there. */
  function InsertAbsent(m: seq<Entry>, e: Entry): seq<Entry> {
    if m == [] || Below(m[|m| - 1].key, e.key) then m + [e]
    else if m[|m| - 1].key == e.key then m
    else InsertAbsent(m[..|m| - 1], e) + [m[|m| - 1]]
  }

  lemma FindOne(e: Entry, k: Key)
    ensures Find([e], k) == if e.key == k then Some(e.ptr) else None
  {
  }

  lemma {:induction false} InsertFinds(m: seq<Entry>, e: Entry, k: Key)
    ensures Find(InsertAbsent(m, e), k) == OrElse(Find(m, k), Find([e], k))
  {
    hide Find, Below;
    FindOne(e, k);
    if m == [] || Below(m[|m| - 1].key, e.key) {
      FindConcat(m, [e], k);
    } else {
      var n := |m| - 1;
      var last := m[n];
      assert m == m[..n] + [last];
      FindConcat(m[..n], [last], k);
      FindOne(last, k);
      if last.key != e.key {
        InsertFinds(m[..n], e, k);
        FindConcat(InsertAbsent(m[..n], e), [last], k);
      }
    }
  }

  /** All keys of `m` are below `k`. */
  ghost predicate AllBelow(m: seq<Entry>, k: Key) {
    forall i :: 0 <= i < |m| ==> Below(m[i].key, k)
  }

  lemma SortedAppend(m: seq<Entry>, e: Entry)
    requires Sorted(m) && AllBelow(m, e.key)
    ensures Sorted(m + [e])
  {
  }

  lemma {:induction false} InsertSorted(m: seq<Entry>, e: Entry, bound: Key)
    requires Sorted(m)
    ensures Sorted(InsertAbsent(m, e))
    ensures AllBelow(m, bound) && Below(e.key, bound) ==> AllBelow(InsertAbsent(m, e), bound)
  {
    hide Below;
    if m == [] {
    } else {
      var n := |m| - 1;
      var last := m[n];
      BelowTotal(last.key, e.key);
      if Below(last.key, e.key) {
        forall i | 0 <= i < n ensures Below(m[i].key, e.key) {
          BelowTransitive(m[i].key, last.key, e.key);
        }
        SortedAppend(m, e);
      } else if last.key != e.key {
        InsertSorted(m[..n], e, last.key);
        InsertSorted(m[..n], e, bound);
        SortedAppend(InsertAbsent(m[..n], e), last);
      }
    }
  }

  // ----------------------------------------------------------- adding a source

  /** `r` holds what `m` held, and of `source` the keys in the window that `m` did not hold. */
  ghost predicate Merged(m: seq<Entry>, source: seq<Entry>, start: Key, end: Key, r: seq<Entry>) {
    Sorted(r) && forall k :: Find(r, k) == OrElse(Find(m, k), if InWindow(k, start, end) then Find(source, k) else None)
  }

  /** Walks one source from the first key at or after `start` to the last at or before `end`. */
  method AddFrom(m: seq<Entry>, source: seq<Entry>, start: Key, end: Key) returns (r: seq<Entry>)
    requires Sorted(m) && Sorted(source)
    ensures Merged(m, source, start, end, r)
  {
    hide Find, Below, Sorted, InsertAbsent, AtMost;
    r := m;
    var i := 0;
    while i < |source| && Below(source[i].key, start)
      invariant i <= |source| && forall j :: 0 <= j < i ==> Below(source[j].key, start)
    {
      i := i + 1;
    }
    ghost var first := i;
    WalkStarts(m, source, start, end, i);
    while i < |source| && AtMost(source[i].key, end)
      invariant first <= i <= |source| && Sorted(r) && Walked(m, source, start, end, i, r)
    {
      WalkTurn(m, source, start, end, first, i, r);
      r := InsertAbsent(r, source[i]);
      i := i + 1;
    }
    WalkEnds(m, source, start, end, i, r);
  }

  /** The walk has passed the first `i` entries of the source. */
  ghost predicate Walked(m: seq<Entry>, source: seq<Entry>, start: Key, end: Key, i: nat, r: seq<Entry>)
    requires i <= |source|
  {
    forall k :: Find(r, k) == OrElse(Find(m, k), if InWindow(k, start, end) then Find(source[..i], k) else None)
  }

  lemma WalkStarts(m: seq<Entry>, source: seq<Entry>, start: Key, end: Key, i: nat)
    requires i <= |source| && forall j :: 0 <= j < i ==> Below(source[j].key, start)
    ensures Walked(m, source, start, end, i, m)
  {
    hide Below;
    forall k | InWindow(k, start, end) ensures Find(source[..i], k).None? {
    }
  }

  lemma WalkTurn(m: seq<Entry>, source: seq<Entry>, start: Key, end: Key, first: nat, i: nat, r: seq<Entry>)
    requires Sorted(source) && Sorted(r) && first <= i < |source| && Walked(m, source, start, end, i, r)
    requires (first < |source| ==> !Below(source[first].key, start)) && AtMost(source[i].key, end)
    ensures Sorted(InsertAbsent(r, source[i])) && Walked(m, source, start, end, i + 1, InsertAbsent(r, source[i]))
  {
    hide Find, Below, InsertAbsent;
    var e := source[i];
    InsertSorted(r, e, e.key);
    assert AtMost(start, e.key) by {
      if i > first && Below(e.key, start) {
        BelowTransitive(source[first].key, e.key, start);
      }
    }
    assert source[..i + 1] == source[..i] + [e];
    forall k ensures Find(InsertAbsent(r, e), k)
                  == OrElse(Find(m, k), if InWindow(k, start, end) then Find(source[..i + 1], k) else None) {
      InsertFinds(r, e, k);
      FindConcat(source[..i], [e], k);
      FindOne(e, k);
    }
  }

  lemma WalkEnds(m: seq<Entry>, source: seq<Entry>, start: Key, end: Key, i: nat, r: seq<Entry>)
    requires Sorted(source) && Sorted(r) && i <= |source| && Walked(m, source, start, end, i, r)
    requires i < |source| ==> !AtMost(source[i].key, end)
    ensures Merged(m, source, start, end, r)
  {
    hide Find, Below, InsertAbsent;
    forall k ensures Find(r, k) == OrElse(Find(m, k), if InWindow(k, start, end) then Find(source, k) else None) {
      assert source == source[..i] + source[i..];
      FindConcat(source[..i], source[i..], k);
      if InWindow(k, start, end) { RestMisses(source, end, i, k); }
    }
  }

  lemma RestMisses(source: seq<Entry>, end: Key, i: nat, k: Key)
    requires Sorted(source) && i <= |source| && AtMost(k, end) && (i < |source| ==> Below(end, source[i].key))
    ensures Find(source[i..], k).None?
  {
    hide Below;
    forall j | i <= j < |source| ensures source[j].key != k {
      if j > i { BelowTransitive(end, source[i].key, source[j].key); }
    }
  }

  // ---------------------------------------------------------------- the scan

  /** The immutable slots in index order. */
  ghost function SlotsGet(mems: seq<Memtable>, slots: seq<Option<nat>>, k: Key, i: nat): Option<Pointer>
    requires Dereferences(mems, slots)
    decreases SLOTS - i
  {
    if i >= SLOTS then None
    else OrElse(if slots[i].Some? then MemGet(mems[slots[i].value], k) else None, SlotsGet(mems, slots, k, i + 1))
  }

  /** What a scan finds for a key: active memtable, slots in index order, then the version. */
  ghost function ScanGet(mems: seq<Memtable>, slots: seq<Option<nat>>, v: Version, tables: Tables,
                         k: Key): Option<Pointer>
    requires mems != [] && Dereferences(mems, slots)
  {
    OrElse(MemGet(mems[|mems| - 1], k), OrElse(SlotsGet(mems, slots, k, 0), VersionGet(v, tables, k)))
  }

  ghost predicate AllListed(mems: seq<Memtable>, lists: seq<seq<Entry>>) {
    |lists| == |mems| && forall j :: 0 <= j < |mems| ==> EntriesOf(lists[j], mems[j])
  }

  /** `r` holds, for each key in the window, what the sources visited so far and then `rest` come to. */
  ghost predicate Holds(r: seq<Entry>, start: Key, end: Key, all: Key -> Option<Pointer>,
                        rest: Key -> Option<Pointer>) {
    && Sorted(r) && (forall k :: !InWindow(k, start, end) ==> Find(r, k).None?)
    && forall k :: InWindow(k, start, end) ==> all(k) == OrElse(Find(r, k), rest(k))
  }

  /** Visiting one more source. */
  lemma HoldsMore(r: seq<Entry>, source: seq<Entry>, r': seq<Entry>, start: Key, end: Key,
                  all: Key -> Option<Pointer>, rest: Key -> Option<Pointer>, rest': Key -> Option<Pointer>)
    requires Holds(r, start, end, all, rest) && Merged(r, source, start, end, r')
    requires forall k :: InWindow(k, start, end) ==> rest(k) == OrElse(Find(source, k), rest'(k))
    ensures Holds(r', start, end, all, rest')
  {
    hide Find, Sorted, InWindow;
  }

  method AddSlots(r: seq<Entry>, lists: seq<seq<Entry>>, slots: seq<Option<nat>>, start: Key, end: Key,
                  ghost mems: seq<Memtable>, ghost all: Key -> Option<Pointer>, ghost tree: Key -> Option<Pointer>)
    returns (r': seq<Entry>)
    requires Dereferences(mems, slots) && AllListed(mems, lists)
    requires Holds(r, start, end, all, k => OrElse(SlotsGet(mems, slots, k, 0), tree(k)))
    ensures Holds(r', start, end, all, tree)
  {
    hide Find, Sorted, InWindow, Holds, SlotsGet, Merged;
    r' := r;
    var i := 0;
    while i < SLOTS
      invariant i <= SLOTS && Holds(r', start, end, all, k => OrElse(SlotsGet(mems, slots, k, i), tree(k)))
    {
      ghost var before := r';
      HoldsSorted(r', start, end, all, k => OrElse(SlotsGet(mems, slots, k, i), tree(k)));
      if slots[i].Some? {
        assert EntriesOf(lists[slots[i].value], mems[slots[i].value]);
        r' := AddFrom(r', lists[slots[i].value], start, end);
        SlotVisited(before, r', lists, slots, i, start, end, mems, all, tree);
      } else {
        SlotSkipped(r', slots, i, start, end, mems, all, tree);
      }
      i := i + 1;
    }
    SlotsDone(r', slots, start, end, mems, all, tree);
  }

  lemma HoldsSorted(r: seq<Entry>, start: Key, end: Key, all: Key -> Option<Pointer>, rest: Key -> Option<Pointer>)
    requires Holds(r, start, end, all, rest)
    ensures Sorted(r)
  {
  }

  lemma SlotStep(mems: seq<Memtable>, slots: seq<Option<nat>>, k: Key, i: nat)
    requires Dereferences(mems, slots) && i < SLOTS
    ensures SlotsGet(mems, slots, k, i)
         == OrElse(if slots[i].Some? then MemGet(mems[slots[i].value], k) else None, SlotsGet(mems, slots, k, i + 1))
  {
  }

  lemma SlotVisited(r: seq<Entry>, r': seq<Entry>, lists: seq<seq<Entry>>, slots: seq<Option<nat>>, i: nat,
                    start: Key, end: Key,
                    mems: seq<Memtable>, all: Key -> Option<Pointer>, tree: Key -> Option<Pointer>)
    requires Dereferences(mems, slots) && AllListed(mems, lists) && i < SLOTS && slots[i].Some?
    requires Holds(r, start, end, all, k => OrElse(SlotsGet(mems, slots, k, i), tree(k)))
    requires Merged(r, lists[slots[i].value], start, end, r')
    ensures Holds(r', start, end, all, k => OrElse(SlotsGet(mems, slots, k, i + 1), tree(k)))
  {
    hide Find, Sorted, InWindow, Holds, Merged, SlotsGet;
    assert EntriesOf(lists[slots[i].value], mems[slots[i].value]);
    forall k ensures SlotsGet(mems, slots, k, i)
                     == OrElse(MemGet(mems[slots[i].value], k), SlotsGet(mems, slots, k, i + 1)) {
      SlotStep(mems, slots, k, i);
    }
    HoldsMore(r, lists[slots[i].value], r', start, end, all,
              k => OrElse(SlotsGet(mems, slots, k, i), tree(k)), k => OrElse(SlotsGet(mems, slots, k, i + 1), tree(k)));
  }

  lemma SlotSkipped(r: seq<Entry>, slots: seq<Option<nat>>, i: nat, start: Key, end: Key,
                    mems: seq<Memtable>, all: Key -> Option<Pointer>, tree: Key -> Option<Pointer>)
    requires Dereferences(mems, slots) && i < SLOTS && slots[i].None?
    requires Holds(r, start, end, all, k => OrElse(SlotsGet(mems, slots, k, i), tree(k)))
    ensures Holds(r, start, end, all, k => OrElse(SlotsGet(mems, slots, k, i + 1), tree(k)))
  {
    hide Find, Sorted, InWindow, SlotsGet;
    forall k ensures SlotsGet(mems, slots, k, i) == SlotsGet(mems, slots, k, i + 1) {
      SlotStep(mems, slots, k, i);
    }
  }

  lemma SlotsDone(r: seq<Entry>, slots: seq<Option<nat>>, start: Key, end: Key,
                  mems: seq<Memtable>, all: Key -> Option<Pointer>, tree: Key -> Option<Pointer>)
    requires Dereferences(mems, slots)
             && Holds(r, start, end, all, k => OrElse(SlotsGet(mems, slots, k, SLOTS), tree(k)))
    ensures Holds(r, start, end, all, tree)
  {
    hide Find, Sorted, InWindow;
  }

  // ------------------------------------------------------------- the version

  ghost function RestGet(v: Version, tables: Tables, level: nat, i: nat, k: Key): Option<Pointer>
    requires level < MAX_LEVELS && i <= |v[level]|
  {
    OrElse(LevelGet(v[level][i..], tables, k), LevelsGet(v[level + 1..], tables, k))
  }

  lemma {:induction false} RestStep(v: Version, tables: Tables, level: nat, i: nat, k: Key)
    requires level < MAX_LEVELS && i < |v[level]|
    ensures RestGet(v, tables, level, i, k)
            == OrElse(FileGet(v[level][i], tables, k), RestGet(v, tables, level, i + 1, k))
  {
    assert v[level][i..][1..] == v[level][i + 1..];
  }

  lemma {:induction false} RestLevel(v: Version, tables: Tables, level: nat, k: Key)
    requires level < MAX_LEVELS
    ensures RestGet(v, tables, level, |v[level]|, k) == LevelsGet(v[level + 1..], tables, k)
    ensures RestGet(v, tables, level, 0, k) == LevelsGet(v[level..], tables, k)
  {
    assert v[level..][0] == v[level] && v[level..][1..] == v[level + 1..];
    assert v[level][0..] == v[level];
  }

  /** A file wholly outside the window holds nothing in it. */
  lemma OutsideWindow(f: FileMeta, start: Key, end: Key, k: Key)
    requires (Below(f.maxKey, start) || Below(end, f.minKey)) && InWindow(k, start, end)
    ensures !InRange(f, k)
  {
    hide Below;
    if Below(f.maxKey, start) {
      BelowAtMost(f.maxKey, start, k);
    } else {
      AtMostBelow(k, end, f.minKey);
    }
  }

  lemma {:induction false} FileVisited(r: seq<Entry>, r': seq<Entry>, v: Version, tables: Tables, level: nat, i: nat,
                                       start: Key, end: Key,
                    all: Key -> Option<Pointer>)
    requires WellFormed(v, tables) && level < MAX_LEVELS && i < |v[level]|
    requires Holds(r, start, end, all, k => RestGet(v, tables, level, i, k))
    requires var f := v[level][i];
             if Below(f.maxKey, start) || Below(end, f.minKey) || f.number !in tables then r' == r
             else Merged(r, tables[f.number], start, end, r')
    ensures Holds(r', start, end, all, k => RestGet(v, tables, level, i + 1, k))
  {
    hide Find, Sorted, InWindow, Merged, RestGet, Below, FileGet;
    var f := v[level][i];
    assert f in v[level] && TablesOk(v[level], tables);
    forall k ensures RestGet(v, tables, level, i, k)
                     == OrElse(FileGet(f, tables, k), RestGet(v, tables, level, i + 1, k)) {
      RestStep(v, tables, level, i, k);
    }
    forall k ensures FileGet(f, tables, k) == Find(tables[f.number], k) {
      FoundInRange(f, tables, k);
    }
    if Below(f.maxKey, start) || Below(end, f.minKey) {
      forall k | InWindow(k, start, end) ensures FileGet(f, tables, k).None? {
        OutsideWindow(f, start, end, k);
        NotInRange(f, tables, k);
      }
    } else {
      HoldsMore(r, tables[f.number], r', start, end, all,
                k => RestGet(v, tables, level, i, k), k => RestGet(v, tables, level, i + 1, k));
    }
  }

  lemma NotInRange(f: FileMeta, tables: Tables, k: Key)
    requires !InRange(f, k)
    ensures FileGet(f, tables, k).None?
  {
  }

  method AddVersion(r: seq<Entry>, v: Version, tables: Tables, start: Key, end: Key, ghost all: Key -> Option<Pointer>)
    returns (r': seq<Entry>)
    requires WellFormed(v, tables) && Holds(r, start, end, all, k => VersionGet(v, tables, k))
    ensures Holds(r', start, end, all, k => None)
  {
    hide Find, Sorted, InWindow, Holds, Merged, RestGet, Below;
    r' := r;
    var level := 0;
    WholeVersion(r, v, tables, start, end, all);
    while level < MAX_LEVELS
      invariant level <= MAX_LEVELS && Holds(r', start, end, all, k => LevelsGet(v[level..], tables, k))
    {
      LevelEdges(r', v, tables, level, start, end, all);
      var i := 0;
      while i < |v[level]|
        invariant i <= |v[level]| && Holds(r', start, end, all, k => RestGet(v, tables, level, i, k))
      {
        var f := v[level][i];
        ghost var before := r';
        HoldsSorted(r', start, end, all, k => RestGet(v, tables, level, i, k));
        assert f in v[level] && TablesOk(v[level], tables);
        if !(Below(f.maxKey, start) || Below(end, f.minKey)) && f.number in tables {
          r' := AddFrom(r', tables[f.number], start, end);
        }
        FileVisited(before, r', v, tables, level, i, start, end, all);
        i := i + 1;
      }
      LevelEdges(r', v, tables, level, start, end, all);
      level := level + 1;
    }
    VersionDone(r', v, tables, start, end, all);
  }

  lemma {:induction false} WholeVersion(r: seq<Entry>, v: Version, tables: Tables, start: Key, end: Key,
                                        all: Key -> Option<Pointer>)
    requires Holds(r, start, end, all, k => VersionGet(v, tables, k))
    ensures Holds(r, start, end, all, k => LevelsGet(v[0..], tables, k))
  {
    hide Find, Sorted, InWindow, LevelsGet;
    assert v[0..] == v;
  }

  lemma {:induction false} LevelEdges(r: seq<Entry>, v: Version, tables: Tables, level: nat, start: Key, end: Key,
                                      all: Key -> Option<Pointer>)
    requires level < MAX_LEVELS
    ensures Holds(r, start, end, all, k => LevelsGet(v[level..], tables, k)) ==>
              Holds(r, start, end, all, k => RestGet(v, tables, level, 0, k))
    ensures Holds(r, start, end, all, k => RestGet(v, tables, level, |v[level]|, k)) ==>
              Holds(r, start, end, all, k => LevelsGet(v[level + 1..], tables, k))
  {
    hide Find, Sorted, InWindow, LevelsGet, RestGet;
    forall k ensures RestGet(v, tables, level, |v[level]|, k) == LevelsGet(v[level + 1..], tables, k)
                  && RestGet(v, tables, level, 0, k) == LevelsGet(v[level..], tables, k) {
      RestLevel(v, tables, level, k);
    }
  }

  lemma {:induction false} VersionDone(r: seq<Entry>, v: Version, tables: Tables, start: Key, end: Key,
                                       all: Key -> Option<Pointer>)
    requires Holds(r, start, end, all, k => LevelsGet(v[MAX_LEVELS..], tables, k))
    ensures Holds(r, start, end, all, k => None)
  {
    hide Find, Sorted, InWindow;
  }

  // --------------------------------------------------------------- the result

  /** `r` is the live part of the first `i` entries of `m`. */
  ghost predicate LivePart(m: seq<Entry>, i: nat, r: seq<Entry>)
    requires i <= |m|
  {
    Sorted(r) && (forall e :: e in r ==> e in m[..i]) && forall k :: Find(r, k) == Live(Find(m[..i], k))
  }

  method DropTombstones(m: seq<Entry>) returns (r: seq<Entry>)
    requires Sorted(m)
    ensures Sorted(r) && forall k :: Find(r, k) == Live(Find(m, k))
  {
    hide Find, LivePart, Sorted;
    r := [];
    var i := 0;
    NothingLive(m);
    while i < |m|
      invariant i <= |m| && LivePart(m, i, r)
    {
      LiveOneMore(m, i, r);
      if !IsTombstone(m[i].ptr) {
        r := r + [m[i]];
      }
      i := i + 1;
    }
    AllLive(m, r);
  }

  lemma NothingLive(m: seq<Entry>)
    ensures LivePart(m, 0, [])
  {
  }

  lemma AllLive(m: seq<Entry>, r: seq<Entry>)
    requires LivePart(m, |m|, r)
    ensures Sorted(r) && forall k :: Find(r, k) == Live(Find(m, k))
  {
    hide Find, Sorted;
    assert m[..|m|] == m;
  }

  lemma LiveOneMore(m: seq<Entry>, i: nat, r: seq<Entry>)
    requires Sorted(m) && i < |m| && LivePart(m, i, r)
    ensures LivePart(m, i + 1, if IsTombstone(m[i].ptr) then r else r + [m[i]])
  {
    hide Find, Below;
    var e := m[i];
    var r' := if IsTombstone(e.ptr) then r else r + [e];
    assert m[..i + 1] == m[..i] + [e];
    forall j | 0 <= j < |r| ensures Below(r[j].key, e.key) {
      assert r[j] in m[..i];
    }
    SortedAppend(r, e);
    forall k ensures Find(r', k) == Live(Find(m[..i + 1], k)) {
      FindConcat(m[..i], [e], k);
      FindConcat(r, [e], k);
      FindOne(e, k);
      if e.key == k { NotYet(m, i); }
    }
  }

  lemma NotYet(m: seq<Entry>, i: nat)
    requires Sorted(m) && i < |m|
    ensures Find(m[..i], m[i].key).None?
  {
    BelowIrreflexive(m[i].key);
    forall j | 0 <= j < i ensures m[..i][j].key != m[i].key {
      assert Below(m[j].key, m[i].key);
    }
  }

  /** `scan`: exactly the live keys of the window, in key order, with the pointers the sources give. */
  method Scan(mems: seq<Memtable>, lists: seq<seq<Entry>>, slots: seq<Option<nat>>, v: Version, tables: Tables,
              start: Key, end: Key) returns (r: seq<Entry>)
    requires mems != [] && Dereferences(mems, slots) && AllListed(mems, lists) && WellFormed(v, tables)
    ensures Sorted(r)
    ensures forall k :: Find(r, k) == if InWindow(k, start, end) then Live(ScanGet(mems, slots, v, tables, k)) else None
  {
    hide Find, Sorted, InWindow, SlotsGet, VersionGet, Merged, WellFormed;
    ghost var act := mems[|mems| - 1];
    ghost var all: Key -> Option<Pointer> := k => ScanGet(mems, slots, v, tables, k);
    ghost var tree: Key -> Option<Pointer> := k => VersionGet(v, tables, k);
    assert EntriesOf(lists[|lists| - 1], act);
    EmptyHolds(start, end, all);
    var m := AddFrom([], lists[|lists| - 1], start, end);
    HoldsMore([], lists[|lists| - 1], m, start, end, all, all, k => OrElse(SlotsGet(mems, slots, k, 0), tree(k)));
    m := AddSlots(m, lists, slots, start, end, mems, all, tree);
    m := AddVersion(m, v, tables, start, end, all);
    r := DropTombstones(m);
  }

  lemma EmptyHolds(start: Key, end: Key, all: Key -> Option<Pointer>)
    ensures Holds([], start, end, all, all)
  {
  }

  // ------------------------------------------------- scans against point reads

  /** What `get_pointer` returns. */
  ghost function PointGet(mems: seq<Memtable>, slots: seq<Option<nat>>, idx: nat, v: Version, tables: Tables,
                          k: Key): Option<Pointer>
    requires mems != [] && Dereferences(mems, slots)
  {
    Live(OrElse(MemGet(mems[|mems| - 1], k), OrElse(RingGet(mems, slots, idx, k, 0), VersionGet(v, tables, k))))
  }

  ghost predicate InSlot(mems: seq<Memtable>, slots: seq<Option<nat>>, i: nat, k: Key)
    requires Dereferences(mems, slots)
  {
    i < SLOTS && slots[i].Some? && k in mems[slots[i].value]
  }

  /** The occupied slot of least index that holds the key. */
  ghost predicate IsFirstHolder(mems: seq<Memtable>, slots: seq<Option<nat>>, k: Key, i: nat)
    requires Dereferences(mems, slots)
  {
    InSlot(mems, slots, i, k) && forall h: nat :: h < i ==> !InSlot(mems, slots, h, k)
  }

  /** A search in index order stops at the first holder. */
  lemma {:induction false} SlotsFind(mems: seq<Memtable>, slots: seq<Option<nat>>, k: Key, i: nat) returns (at: nat)
    requires Dereferences(mems, slots) && i <= SLOTS && forall h: nat :: h < i ==> !InSlot(mems, slots, h, k)
    ensures SlotsGet(mems, slots, k, i).None? ==> forall j: nat :: !InSlot(mems, slots, j, k)
    ensures SlotsGet(mems, slots, k, i).Some? ==>
              IsFirstHolder(mems, slots, k, at) && SlotsGet(mems, slots, k, i) == Some(mems[slots[at].value][k])
    decreases SLOTS - i
  {
    at := i;
    if i < SLOTS {
      SlotStep(mems, slots, k, i);
      if !InSlot(mems, slots, i, k) { at := SlotsFind(mems, slots, k, i + 1); }
    }
  }

  /** A search of the ring stops at the newest holder. */
  lemma RingFind(mems: seq<Memtable>, slots: seq<Option<nat>>, lo: nat, hi: nat, k: Key) returns (j: nat)
    requires SlotsHold(slots, lo, hi) && hi <= |mems|
    ensures Dereferences(mems, slots)
    ensures RingGet(mems, slots, hi, k, 0).None? ==> forall i: nat :: !InSlot(mems, slots, i, k)
    ensures RingGet(mems, slots, hi, k, 0).Some? ==>
              && IsNewestHolder(mems, lo, hi, k, j) && RingGet(mems, slots, hi, k, 0) == Some(mems[j][k])
              && InSlot(mems, slots, j % SLOTS, k) && slots[j % SLOTS] == Some(j)
  {
    hide RingGet;
    RingFindsNewest(mems, slots, lo, hi, k, 0);
    j := 0;
    if RingGet(mems, slots, hi, k, 0).Some? {
      j :| IsNewestHolder(mems, lo, hi, k, j) && RingGet(mems, slots, hi, k, 0) == Some(mems[j][k]);
    }
  }

  /** The holder with the least slot index and the newest holder show the same. */
  ghost predicate HoldersAgree(mems: seq<Memtable>, slots: seq<Option<nat>>, lo: nat, hi: nat, k: Key)
    requires Dereferences(mems, slots) && hi <= |mems|
  {
    forall i: nat, j: nat :: IsFirstHolder(mems, slots, k, i) && IsNewestHolder(mems, lo, hi, k, j) ==>
      Live(Some(mems[slots[i].value][k])) == Live(Some(mems[j][k]))
  }

  lemma NewestUnique(mems: seq<Memtable>, lo: nat, hi: nat, k: Key, i: nat, j: nat)
    requires hi <= |mems| && IsNewestHolder(mems, lo, hi, k, i) && IsNewestHolder(mems, lo, hi, k, j)
    ensures i == j
  {
  }

  lemma FirstUnique(mems: seq<Memtable>, slots: seq<Option<nat>>, k: Key, i: nat, j: nat)
    requires Dereferences(mems, slots) && IsFirstHolder(mems, slots, k, i) && IsFirstHolder(mems, slots, k, j)
    ensures i == j
  {
    hide InSlot;
  }

  /** A scan and a point read agree on a key if and only if the active memtable has it, or no frozen one has it,
      or the frozen holder in the least slot and the newest frozen holder carry the same live pointer. */
  lemma {:induction false} AgreementExact(mems: seq<Memtable>, slots: seq<Option<nat>>, lo: nat, hi: nat, v: Version,
                                          tables: Tables, k: Key)
    requires mems != [] && SlotsHold(slots, lo, hi) && hi <= |mems|
    ensures Dereferences(mems, slots)
    ensures Live(ScanGet(mems, slots, v, tables, k)) == PointGet(mems, slots, hi, v, tables, k)
       <==> k in mems[|mems| - 1] || HoldersAgree(mems, slots, lo, hi, k)
  {
    hide RingGet, SlotsGet, SlotsHold, VersionGet, InSlot, IsNewestHolder;
    var j := RingFind(mems, slots, lo, hi, k);
    var i := SlotsFind(mems, slots, k, 0);
    var found, newest := SlotsGet(mems, slots, k, 0), RingGet(mems, slots, hi, k, 0);
    assert found.Some? <==> newest.Some?;
    if found.Some? {
      HoldersAre(mems, slots, lo, hi, k, i, j);
    } else {
      assert forall h: nat :: !IsFirstHolder(mems, slots, k, h);
    }
  }

  lemma HoldersAre(mems: seq<Memtable>, slots: seq<Option<nat>>, lo: nat, hi: nat, k: Key, i: nat, j: nat)
    requires Dereferences(mems, slots) && hi <= |mems| && IsFirstHolder(mems, slots, k, i)
             && IsNewestHolder(mems, lo, hi, k, j)
    ensures HoldersAgree(mems, slots, lo, hi, k) <==> Live(Some(mems[slots[i].value][k])) == Live(Some(mems[j][k]))
  {
    hide Live;
    forall x: nat, y: nat | IsFirstHolder(mems, slots, k, x) && IsNewestHolder(mems, lo, hi, k, y)
      ensures x == i && y == j
    {
      NewestUnique(mems, lo, hi, k, y, j);
      FirstUnique(mems, slots, k, x, i);
    }
  }

  /** No key is in two occupied slots. */
  ghost predicate SlotsApart(mems: seq<Memtable>, slots: seq<Option<nat>>)
    requires Dereferences(mems, slots)
  {
    forall i, j, k :: InSlot(mems, slots, i, k) && InSlot(mems, slots, j, k) ==> i == j
  }

  /** When no key is in two occupied slots, a scan gives exactly what point reads give, in key order. */
  lemma {:induction false} ScanAgrees(mems: seq<Memtable>, slots: seq<Option<nat>>, lo: nat, hi: nat, v: Version,
                                      tables: Tables, k: Key)
    requires mems != [] && SlotsHold(slots, lo, hi) && hi <= |mems| && Dereferences(mems, slots)
             && SlotsApart(mems, slots)
    ensures Live(ScanGet(mems, slots, v, tables, k)) == PointGet(mems, slots, hi, v, tables, k)
  {
    hide RingGet, SlotsGet, VersionGet, ScanGet, PointGet;
    AgreementExact(mems, slots, lo, hi, v, tables, k);
    forall i: nat, j: nat | IsFirstHolder(mems, slots, k, i) && IsNewestHolder(mems, lo, hi, k, j)
      ensures Live(Some(mems[slots[i].value][k])) == Live(Some(mems[j][k])) {
      assert slots[j % SLOTS] == Some(j);
      assert InSlot(mems, slots, j % SLOTS, k);
    }
  }

  /** Two frozen memtables with the same key: the scan gives the older value. */
  lemma {:induction false} ScanStale(k: Key, older: Pointer, newer: Pointer, v: Version, tables: Tables)
    requires !IsTombstone(older) && !IsTombstone(newer) && older != newer
    ensures var mems: seq<Memtable> := [map[k := older], map[k := newer], map[]];
            var slots: seq<Option<nat>> := [Some(0), Some(1), None, None];
            && SlotsHold(slots, 0, 2) && Dereferences(mems, slots)
            && Live(ScanGet(mems, slots, v, tables, k)) == Some(older)
            && PointGet(mems, slots, 2, v, tables, k) == Some(newer)
  {
    hide VersionGet;
    var mems: seq<Memtable> := [map[k := older], map[k := newer], map[]];
    var slots: seq<Option<nat>> := [Some(0), Some(1), None, None];
    SlotStep(mems, slots, k, 0);
  }
}
