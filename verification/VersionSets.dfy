/** The version set: file numbers, the current version and the manifest, kept in step by every commit. */
module VersionSets {
  import opened Keys
  import opened Codec
  import opened Lsm
  import opened Merge
  import opened Compaction
  import opened Outputs
  import opened EditCodec
  import opened Versions
  import opened Manifest

  /** A compaction round: the level chosen from `snap` is one over its limit with the greatest quotient, and its plan
      is committed on what flushes have made of `snap` meanwhile. */
  ghost predicate Round(snap: Version, tables: Tables, o: Options, p: Plan, moved: Version, newer: seq<FileMeta>,
                        v: Version) {
    && PlanOk(p, snap, tables) && !LevelSettled(snap, o, p.source) && Greatest(snap, o, p.source)
    && FlushedSince(snap, moved, newer) && v == Apply(PlanEdit(p), moved)
  }

  /** Every edit carries the counter it was logged with. */
  ghost predicate Counted(edits: seq<Edit>) {
    forall i :: 0 <= i < |edits| ==> edits[i].nextFile.Some?
  }

  /** Every version so far had its levels in order. */
  ghost predicate InOrder(edits: seq<Edit>) {
    forall i :: 0 <= i < |edits| ==> OrderedAt(edits, i)
  }

  ghost predicate OrderedAt(edits: seq<Edit>, i: nat)
    requires i < |edits|
  {
    OrderedVersion(After(edits[..i + 1]))
  }

  ghost predicate OrderedVersion(v: Version) {
    forall l :: 0 <= l < MAX_LEVELS ==> Ordered(l, v[l])
  }

  /** Every record written so far, and every snapshot that could have replaced one, is of a size recovery reads. */
  ghost predicate Fitting(edits: seq<Edit>) {
    forall i :: 0 <= i < |edits| ==> FittingAt(edits, i)
  }

  ghost predicate FittingAt(edits: seq<Edit>, i: nat)
    requires i < |edits|
  {
    RecordOk(edits[i]) && RecordOk(SnapshotEdit(After(edits[..i + 1]), NextAfter(edits[i], 1)))
  }

  ghost predicate FilesUpTo(v: Version, n: nat) {
    forall l, f :: 0 <= l < MAX_LEVELS && f in v[l] ==> f.number <= n
  }

  lemma {:induction false} RunFits(edits: seq<Edit>)
    requires Counted(edits) && InOrder(edits) && Fitting(edits)
    ensures RunOk(edits)
  {
    hide After, RecordOk, SnapshotEdit, Ordered;
    forall i | 0 <= i < |edits| ensures CommitOk(edits, i) {
      assert FittingAt(edits, i) && OrderedAt(edits, i);
    }
  }

  /** One more edit, logged with the counter `next`. */
  lemma {:induction false} CommitOne(edits: seq<Edit>, edit: Edit, stamped: Edit, next: nat)
    requires Counted(edits) && stamped == edit.(nextFile := Some(next))
    ensures var all := edits + [stamped];
            && Counted(all) && After(all) == Apply(edit, After(edits)) && NextAfterAll(all, 1) == next
            && ManifestAfter(all) == LoggedManifest(ManifestAfter(edits), stamped, After(all), next)
  {
    hide Apply, LoggedManifest, NextAfterAll;
    assert (edits + [stamped])[..|edits|] == edits;
    OneMoreEdit(edits, stamped, next);
    SameEffect(edit, next, After(edits));
  }

  /** The counter an edit carries does not change what it does to a version. */
  lemma {:induction false} SameEffect(edit: Edit, next: nat, v: Version)
    ensures Apply(edit.(nextFile := Some(next)), v) == Apply(edit, v)
  {
    var e := edit.(nextFile := Some(next));
    forall l | 0 <= l < MAX_LEVELS ensures ApplyLevel(e, l, v[l]) == ApplyLevel(edit, l, v[l]) {
      SameKept(edit, next, l, v[l]);
    }
  }

  lemma {:induction false} SameKept(edit: Edit, next: nat, level: nat, files: seq<FileMeta>)
    ensures Kept(edit.(nextFile := Some(next)), level, files) == Kept(edit, level, files)
  {
    if files != [] { SameKept(edit, next, level, files[..|files| - 1]); }
  }

  lemma {:induction false} WellFormedOrdered(v: Version, tables: Tables)
    requires WellFormed(v, tables)
    ensures OrderedVersion(v)
  {
    forall l | 0 <= l < MAX_LEVELS ensures Ordered(l, v[l]) {
      assert LevelOk(l, v[l]) && TablesOk(v[l], tables);
      forall i, j | 0 <= i < j < |v[l]| ensures Before(l, v[l][i], v[l][j]) {
        RangeOrdered(l, v[l], tables, i, j);
      }
    }
  }

  lemma {:induction false} RangeOrdered(l: nat, files: seq<FileMeta>, tables: Tables, i: nat, j: nat)
    requires LevelOk(l, files) && TablesOk(files, tables) && i < j < |files|
    ensures Before(l, files[i], files[j])
  {
    if l > 0 {
      assert files[i] in files && TableOk(files[i], tables);
      RangeNotEmpty(files[i], tables);
      AtMostBelow(files[i].minKey, files[i].maxKey, files[j].minKey);
    }
  }

  lemma RangeNotEmpty(f: FileMeta, tables: Tables)
    requires TableOk(f, tables)
    ensures AtMost(f.minKey, f.maxKey)
  {
    KeyOrder();
  }

  /** After a commit that leaves a well-formed version, with every table number at most the counter. */
  lemma {:induction false} CommitKept(before: seq<Edit>, edits: seq<Edit>, v: Version, tables: Tables, next: nat)
    requires InOrder(before) && edits != [] && before == edits[..|edits| - 1] && v == After(edits) && Counted(edits)
    requires WellFormed(v, tables) && NumbersUpTo(tables, next)
    ensures InOrder(edits) && FilesUpTo(v, next) && (Fitting(edits) ==> RunOk(edits))
  {
    hide After, WellFormed, OrderedVersion, Fitting, RunOk;
    var n := |edits| - 1;
    WellFormedOrdered(v, tables);
    forall i | 0 <= i < |edits| ensures OrderedAt(edits, i) {
      if i < n {
        assert before[..i + 1] == edits[..i + 1] && OrderedAt(before, i);
      } else {
        assert edits[..i + 1] == edits;
      }
    }
    forall l, f | 0 <= l < MAX_LEVELS && f in v[l] ensures f.number <= next {
      LevelNumbers(v, tables, l);
    }
    if Fitting(edits) { RunFits(edits); }
  }

  class VersionSet {
    var nextFile: nat
    var current: Version
    var tables: Tables
    var manifest: Bytes
    var pending: set<nat>
    var watched: seq<Version>
    ghost var edits: seq<Edit>

    ghost predicate Valid()
      reads this
    {
      && WellFormed(current, tables) && NumbersUpTo(tables, nextFile) && (forall n :: n in pending ==> n <= nextFile)
      && Logged() && InOrder(edits) && NextAfterAll(edits, 1) <= nextFile && FilesUpTo(current, NextAfterAll(edits, 1))
    }

    /** Version and manifest are those the edits so far lead to. */
    ghost predicate Logged()
      reads this
    {
      current == After(edits) && manifest == ManifestAfter(edits) && Counted(edits)
    }

    constructor ()
      ensures Valid() && nextFile == 1 && tables == map[] && manifest == [] && pending == {} && watched == []
      ensures edits == []
      ensures forall k :: VersionGet(current, tables, k).None?
    {
      nextFile, current, tables, manifest := 1, [[], [], [], [], [], []], map[], [];
      pending, watched, edits := {}, [], [];
      new;
      forall k ensures VersionGet(current, tables, k).None? {
        LevelsOfNothing(current, tables, k);
      }
    }

    /** A number no table carries and none being written has, marked as being written. */
    method NewFileNumber() returns (n: nat)
      requires Valid()
      modifies this`nextFile, this`pending
      ensures Valid() && n !in tables && n !in old(pending) && n == nextFile == old(nextFile) + 1
      ensures pending == old(pending) + {n}
    {
      nextFile := nextFile + 1;
      n := nextFile;
      pending := pending + {n};
    }

    /** Logs an edit and installs the version it leads to; its files are no longer being written. */
    method LogAndApply(edit: Edit)
      requires Logged()
      modifies this`nextFile, this`current, this`manifest, this`pending, this`watched, this`edits
      ensures nextFile == if edit.nextFile.Some? then edit.nextFile.value else old(nextFile)
      ensures current == Apply(edit, old(current))
      ensures pending == old(pending) - AddedNumbers(edit) && watched == old(watched) + [current]
      ensures Logged() && edits == old(edits) + [edit.(nextFile := Some(nextFile))]
      ensures NextAfterAll(edits, 1) == nextFile
      ensures RunOk(edits) ==>
                && Recovered(manifest).1 == nextFile
                && (Recovered(manifest).0 == current <==> MissesNothing(LogAfter(edits)))
    {
      hide U32, EncodeEdit, Apply, After, ManifestAfter, Recovered, RunOk, MissesNothing, LogAfter, NextAfterAll;
      var stamped := edit;
      if edit.nextFile.Some? {
        nextFile := edit.nextFile.value;
      } else {
        stamped := edit.(nextFile := Some(nextFile));
      }
      CommitOne(edits, edit, stamped, nextFile);
      var encoded := EncodeTo(stamped);
      manifest := manifest + (U32(|encoded|) + encoded);

      current := RewriteLevels(edit, current);
      watched := watched + [current];
      pending := pending - AddedNumbers(edit);
      if |manifest| > MANIFEST_LIMIT {
        manifest := SnapshotRecord(current, nextFile);
      }
      edits := edits + [stamped];
      if RunOk(edits) { RunRecoversExactly(edits); }
    }

    /** At any time: what recovery would start counting from is no more than the counter, and no file of the version
        has a higher number, so the next number handed out is new. */
    lemma RecoveredCounter()
      requires Valid() && Fitting(edits)
      ensures Recovered(manifest).1 <= nextFile && FilesUpTo(current, Recovered(manifest).1)
    {
      hide WellFormed, After, ManifestAfter, Recovered, NextAfterAll, FilesUpTo, InOrder, Fitting;
      RunFits(edits);
      RunRecoversExactly(edits);
    }

    /** Writes a memtable's entries as a level-0 table. An empty memtable only uses up a number. */
    method FlushImmutable(entries: seq<Entry>)
      requires Valid() && Sorted(entries)
      modifies this
      ensures Valid() && nextFile == old(nextFile) + 1 && pending == old(pending)
      ensures Extends(old(tables), tables)
      ensures entries == [] ==> current == old(current) && tables == old(tables) && manifest == old(manifest)
      ensures entries != [] ==>
                var f := FileMeta(nextFile, 24 + 20 * |entries| + KeyBytes(entries), entries[0].key,
                                  entries[|entries| - 1].key);
                current == old(current)[0 := [f] + old(current)[0]]
      ensures entries != [] && Fitting(edits) ==> Recovered(manifest).1 == nextFile
      ensures exists newer :: FlushedSince(old(current), current, newer)
      ensures forall k :: VersionGet(current, tables, k)
                       == OrElse(Find(entries, k), VersionGet(old(current), old(tables), k))
    {
      hide VersionGet, Find, WellFormed, Sorted, After, ManifestAfter, Recovered, NextAfterAll, InOrder, Fitting, RunOk,
           MissesNothing, LogAfter, FilesUpTo, Apply;
      var n := NewFileNumber();
      if entries == [] {
        pending := pending - {n};
        NothingFlushed(current, tables);
        return;
      }
      ghost var before := tables;
      tables := tables[n := entries];
      var f := FileMeta(n, ChunkBytes(entries) + 24, entries[0].key, entries[|entries| - 1].key);
      FlushedTable(current, before, n, entries, f);
      ChunkEstimate(entries);
      ghost var history := edits;
      LogAndApply(FlushEdit(f));
      CommitKept(history, edits, current, tables, nextFile);
    }

    /** Merges the chosen level into the next and writes the outputs; nothing is committed yet. */
    method PrepareCompaction(snap: Version, source: nat, threshold: nat) returns (p: Plan)
      requires Valid() && WellFormed(snap, tables)
      requires source < MAX_LEVELS - 1 && snap[source] != [] && threshold > 0
      modifies this`nextFile, this`tables, this`pending
      ensures Valid() && nextFile >= old(nextFile) && pending == old(pending) + NumbersOf(p.outs)
      ensures Extends(old(tables), tables)
      ensures forall f :: f in p.outs ==> f.number in pending
      ensures p.source == source && WellFormed(snap, tables) && PlanOk(p, snap, tables) && Shrinks(p, tables)
      ensures Chunked(p.outs, tables, threshold, true)
    {
      hide After, ManifestAfter, InOrder, NextAfterAll, FilesUpTo, WellFormed, PlanOk, Shrinks, Chunked;
      var newTables, next;
      p, newTables, next := MergePlan(snap, source, tables, nextFile, threshold);
      WellFormedFrame(snap, tables, newTables);
      WellFormedFrame(current, tables, newTables);
      tables, nextFile := newTables, next;
      pending := pending + NumbersOf(p.outs);
    }

    /** Commits a finished merge on whatever version flushes have left. */
    method CommitPlan(p: Plan, ghost snap: Version, ghost newer: seq<FileMeta>)
      requires Valid() && WellFormed(snap, tables) && PlanOk(p, snap, tables) && FlushedSince(snap, current, newer)
      modifies this`nextFile, this`current, this`manifest, this`pending, this`watched, this`edits
      ensures Valid() && nextFile == old(nextFile) && current == Apply(PlanEdit(p), old(current))
      ensures Fitting(edits) ==> Recovered(manifest).1 == nextFile
      ensures forall k :: Live(VersionGet(current, tables, k)) == Live(VersionGet(old(current), tables, k))
    {
      hide PlanOk, Apply, VersionGet, WellFormed, After, ManifestAfter, Recovered, NextAfterAll, InOrder, Fitting,
           RunOk, MissesNothing, LogAfter, FilesUpTo;
      CommitAfterFlushes(p, snap, current, newer, tables);
      ghost var history := edits;
      LogAndApply(PlanEdit(p));
      CommitKept(history, edits, current, tables, nextFile);
    }

    /** One compaction round: pick a level, merge from a snapshot, let the given flushes be installed
        meanwhile, commit. Every key then shows the flushes over what it showed before. */
    method RunCompaction(o: Options, flushes: seq<seq<Entry>>) returns (done: bool)
      requires Valid() && forall i :: 0 <= i < |flushes| ==> Sorted(flushes[i])
      modifies this
      ensures Valid()
      ensures done <==> !Settled(old(current), o)
      ensures !done ==> current == old(current) && tables == old(tables)
      ensures done ==> exists p, moved, newer :: Round(old(current), tables, o, p, moved, newer, current)
      ensures done && flushes == [] ==> Weight(current, tables) < Weight(old(current), old(tables))
      ensures done ==> forall k :: Live(VersionGet(current, tables, k))
                                == Live(FlushedOver(flushes, VersionGet(old(current), old(tables), k), k))
    {
      hide VersionGet, WellFormed, PlanOk, Apply, Weight, Shrinks, Sorted, FlushedOver, Chunked, Settled, LevelSettled,
           Greatest, FlushedSince, After, ManifestAfter, InOrder, NextAfterAll, FilesUpTo;
      var snap := current;
      var source := PickSource(snap, o);
      if source.None? { return false; }
      FullNotEmpty(snap, o, source.value);
      ghost var before := tables;
      var p := PrepareCompaction(snap, source.value, FlushThreshold(o));
      CommitSettles(p, snap, before, tables);
      ghost var newer := InstallFlushes(flushes, p, snap, before);
      ghost var moved := current;
      CommitPlan(p, snap, newer);
      assert Round(snap, tables, o, p, moved, newer, current);
      done := true;
    }

    /** Flushes installed while a merge holds its snapshot. */
    method InstallFlushes(flushes: seq<seq<Entry>>, ghost p: Plan, ghost snap: Version, ghost before: Tables)
      returns (ghost newer: seq<FileMeta>)
      requires Valid() && current == snap && WellFormed(snap, before) && Extends(before, tables)
               && PlanOk(p, snap, tables)
      requires forall i :: 0 <= i < |flushes| ==> Sorted(flushes[i])
      modifies this
      ensures Valid() && WellFormed(snap, tables) && PlanOk(p, snap, tables) && FlushedSince(snap, current, newer)
      ensures flushes == [] ==> current == old(current) && tables == old(tables)
      ensures forall k :: VersionGet(current, tables, k) == FlushedOver(flushes, VersionGet(snap, before, k), k)
    {
      hide VersionGet, WellFormed, PlanOk, Sorted, Find, FlushedOver, Logged, InOrder, NextAfterAll, FilesUpTo,
           Recovered, Fitting;
      newer := [];
      Unmoved(snap, before, tables);
      NoFlushesYet(flushes);
      var i := 0;
      while i < |flushes|
        invariant i <= |flushes| && Valid() && WellFormed(snap, tables) && PlanOk(p, snap, tables)
        invariant FlushedSince(snap, current, newer) && (i == 0 ==> current == snap && tables == old(tables))
        invariant forall k ::
                    VersionGet(current, tables, k) == FlushedOver(flushes[..i], VersionGet(snap, before, k), k)
      {
        ghost var v, t := current, tables;
        FlushImmutable(flushes[i]);
        ghost var more :| FlushedSince(v, current, more);
        FlushesCompose(snap, v, current, newer, more);
        PlanFrame(p, snap, t, tables);
        WellFormedFrame(snap, t, tables);
        OneMoreFlush(flushes, i);
        newer := more + newer;
        i := i + 1;
      }
      assert flushes[..i] == flushes;
    }

    /** Compacts until every scored level is below its limit; lookups never change. */
    method CompactionWorker(o: Options)
      requires Valid()
      modifies this
      ensures Valid() && Settled(current, o)
      ensures forall k :: Live(VersionGet(current, tables, k)) == Live(VersionGet(old(current), old(tables), k))
    {
      hide VersionGet, WellFormed, Weight, Settled;
      while true
        invariant Valid()
        invariant forall k :: Live(VersionGet(current, tables, k)) == Live(VersionGet(old(current), old(tables), k))
        decreases Weight(current, tables)
      {
        var hot := PickSource(current, o);
        if hot.None? { return; }
        var done := RunCompaction(o, []);
      }
    }
  }
}
