/** What one compaction reads, writes and commits, and why lookups cannot tell. */
module Compaction {
  import opened Keys
  import opened Lsm
  import opened Merge

  /** A finished compaction: `src` and `tgt` merged into `outs`, one level below `source`. */
  datatype Plan = Plan(source: nat, lo: Key, hi: Key, src: seq<FileMeta>, tgt: seq<FileMeta>, outs: seq<FileMeta>)

  function DeletedOf(level: nat, files: seq<FileMeta>): seq<(nat, nat)> {
    seq(|files|, i requires 0 <= i < |files| => (level, files[i].number))
  }

  function AddedOf(level: nat, files: seq<FileMeta>): seq<(nat, FileMeta)> {
    seq(|files|, i requires 0 <= i < |files| => (level, files[i]))
  }

  function PlanEdit(p: Plan): Edit {
    Edit(None, DeletedOf(p.source, p.src) + DeletedOf(p.source + 1, p.tgt), AddedOf(p.source + 1, p.outs))
  }

  predicate Overlaps(f: FileMeta, lo: Key, hi: Key) {
    !(Below(f.maxKey, lo) || Below(hi, f.minKey))
  }

  function Overlapping(files: seq<FileMeta>, lo: Key, hi: Key): (r: seq<FileMeta>)
    ensures forall f :: f in r <==> f in files && Overlaps(f, lo, hi)
  {
    if files == [] then []
    else
      var rest := Overlapping(files[..|files| - 1], lo, hi);
      var f := files[|files| - 1];
      assert files == files[..|files| - 1] + [f];
      if Overlaps(f, lo, hi) then rest + [f] else rest
  }

  /** All of level 0, or the first file of a deeper level. */
  function SourceFiles(v: Version, source: nat): seq<FileMeta>
    requires source < MAX_LEVELS
  {
    if source == 0 || v[source] == [] then v[source] else v[source][..1]
  }

  ghost predicate Covers(lo: Key, hi: Key, files: seq<FileMeta>) {
    forall f :: f in files ==> AtMost(lo, f.minKey) && AtMost(f.maxKey, hi)
  }

  ghost predicate MergesTo(p: Plan, tables: Tables) {
    forall k :: LevelGet(p.outs, tables, k)
             == Keep(p.source + 1 == MAX_LEVELS - 1, OrElse(LevelGet(p.src, tables, k), LevelGet(p.tgt, tables, k)))
  }

  ghost predicate PlanOk(p: Plan, snap: Version, tables: Tables) {
    && p.source < MAX_LEVELS - 1
    && p.src == SourceFiles(snap, p.source) && p.src != []
    && Covers(p.lo, p.hi, p.src)
    && p.tgt == Overlapping(snap[p.source + 1], p.lo, p.hi)
    && Ascending(p.outs) && TablesOk(p.outs, tables)
    && MergesTo(p, tables)
  }

  /** What a plan merges: all of level 0 or the first file of a deeper level, and with it exactly the files of the
      next level that are neither wholly below nor wholly above its key range. */
  lemma {:induction false} PlanInputs(p: Plan, snap: Version, tables: Tables)
    requires PlanOk(p, snap, tables)
    ensures p.src == if p.source == 0 then snap[0] else [snap[p.source][0]]
    ensures forall f :: f in p.tgt <==> f in snap[p.source + 1] && !Below(f.maxKey, p.lo) && !Below(p.hi, f.minKey)
  {
    hide Below, MergesTo, Ascending;
    if p.source > 0 { assert snap[p.source][..1] == [snap[p.source][0]]; }
  }

  /** What a plan's outputs hold: into level 5 no tombstone, and every other newest pointer of the inputs; into any
      other level the newest pointers as they are. */
  lemma {:induction false} PlanOutputs(p: Plan, snap: Version, tables: Tables, k: Key)
    requires PlanOk(p, snap, tables)
    ensures var newest := OrElse(LevelGet(p.src, tables, k), LevelGet(p.tgt, tables, k));
            LevelGet(p.outs, tables, k)
              == if p.source == 4 && newest.Some? && newest.value.length == 0 && newest.value.offset == MAX_UINT64
                 then None else newest
  {
    hide LevelGet, Ascending, Overlapping, SourceFiles, TablesOk;
  }

  /** `v` is `snap` after some number of flushes. */
  ghost predicate FlushedSince(snap: Version, v: Version, newer: seq<FileMeta>) {
    v == snap[0 := newer + snap[0]]
  }

  // ------------------------------------------------------------- edit facts

  lemma {:induction false} PlanDeletes(p: Plan, level: nat, n: nat)
    ensures Deletes(PlanEdit(p), level, n)
       <==> ((level == p.source && exists f :: f in p.src && f.number == n)
             || (level == p.source + 1 && exists f :: f in p.tgt && f.number == n))
  {
    var ds := PlanEdit(p).deleted;
    forall f | f in p.src && level == p.source && f.number == n ensures (level, n) in ds {
      var i :| 0 <= i < |p.src| && p.src[i] == f;
      assert ds[i] == (level, n);
    }
    forall f | f in p.tgt && level == p.source + 1 && f.number == n ensures (level, n) in ds {
      var i :| 0 <= i < |p.tgt| && p.tgt[i] == f;
      assert ds[|p.src| + i] == (level, n);
    }
  }

  lemma {:induction false} AddedOfAt(at: nat, files: seq<FileMeta>, level: nat)
    ensures AddedAt(AddedOf(at, files), level) == if level == at then files else []
  {
    if files != [] {
      var n := |files| - 1;
      assert AddedOf(at, files)[..n] == AddedOf(at, files[..n]);
      AddedOfAt(at, files[..n], level);
    }
  }

  /** In a deep level a file number names one file. */
  lemma NumberNamesFile(level: nat, files: seq<FileMeta>, tables: Tables, f: FileMeta, g: FileMeta)
    requires LevelOk(level, files) && TablesOk(files, tables)
    requires f in files && g in files && f.number == g.number
    ensures f == g
  {
    if level > 0 && f != g {
      FilesApart(files, f, g);
      MinAtMostMax(f, tables);
      MinAtMostMax(g, tables);
    }
  }

  // ---------------------------------------------------- lookup within a level

  lemma HolderUnique(files: seq<FileMeta>, tables: Tables, k: Key, f: FileMeta, g: FileMeta)
    requires Ascending(files) && f in files && g in files
    requires FileGet(f, tables, k).Some? && FileGet(g, tables, k).Some?
    ensures f == g
  {
    if f != g {
      FilesApart(files, f, g);
      if Below(f.maxKey, g.minKey) {
        AtMostBelow(k, f.maxKey, g.minKey);
      } else {
        AtMostBelow(k, g.maxKey, f.minKey);
      }
    }
  }

  /** A deep level made of two groups of files is searched as one group, then the other. */
  lemma LevelGetUnion(files: seq<FileMeta>, a: seq<FileMeta>, b: seq<FileMeta>, tables: Tables, k: Key)
    requires Ascending(files)
    requires forall f :: f in files <==> f in a || f in b
    ensures LevelGet(files, tables, k) == OrElse(LevelGet(a, tables, k), LevelGet(b, tables, k))
    ensures LevelGet(a, tables, k).Some? && (forall f :: f in a ==> f !in b) ==> LevelGet(b, tables, k).None?
  {
    LevelGetNone(files, tables, k);
    LevelGetNone(a, tables, k);
    LevelGetNone(b, tables, k);
    if f :| f in files && FileGet(f, tables, k).Some? {
      forall g | g in files && FileGet(g, tables, k).Some? ensures g == f {
        HolderUnique(files, tables, k, f, g);
      }
      LevelGetOnly(files, tables, k, f);
      if f in a { LevelGetOnly(a, tables, k, f); }
      if f in b { LevelGetOnly(b, tables, k, f); }
    }
  }

  // -------------------------------------------------- outputs stay in the hull

  /** Every key of an output came from an input file. */
  lemma {:induction false} OutputKeyHeld(p: Plan, snap: Version, tables: Tables, k: Key) returns (h: FileMeta)
    requires PlanOk(p, snap, tables) && LevelGet(p.outs, tables, k).Some?
    ensures (h in p.src || h in p.tgt) && InRange(h, k)
  {
    assert OrElse(LevelGet(p.src, tables, k), LevelGet(p.tgt, tables, k)).Some?;
    LevelGetNone(p.src, tables, k);
    LevelGetNone(p.tgt, tables, k);
    h :| (h in p.src || h in p.tgt) && FileGet(h, tables, k).Some?;
  }

  lemma EndsHeld(files: seq<FileMeta>, tables: Tables, g: FileMeta)
    requires TablesOk(files, tables) && g in files
    ensures LevelGet(files, tables, g.minKey).Some? && LevelGet(files, tables, g.maxKey).Some?
  {
    var es := tables[g.number];
    FindAt(es, 0);
    FindAt(es, |es| - 1);
    FoundInRange(g, tables, g.minKey);
    FoundInRange(g, tables, g.maxKey);
    LevelGetNone(files, tables, g.minKey);
    LevelGetNone(files, tables, g.maxKey);
  }

  /** A target file left out of the merge lies wholly to one side of every input file. */
  lemma {:induction false} ExcludedBesideFile(p: Plan, snap: Version, tables: Tables, f: FileMeta, h: FileMeta)
    requires WellFormed(snap, tables) && PlanOk(p, snap, tables)
    requires f in snap[p.source + 1] && f !in p.tgt && (h in p.src || h in p.tgt)
    ensures Below(f.maxKey, p.lo) ==> Below(f.maxKey, h.minKey)
    ensures Below(p.hi, f.minKey) ==> Below(h.maxKey, f.minKey)
  {
    hide MergesTo, Ascending, TableOk;
    var target := snap[p.source + 1];
    assert LevelOk(p.source + 1, target) && TablesOk(target, tables);
    if h in p.src {
      if Below(f.maxKey, p.lo) { BelowAtMost(f.maxKey, p.lo, h.minKey); }
      if Below(p.hi, f.minKey) { AtMostBelow(h.maxKey, p.hi, f.minKey); }
    } else {
      assert Overlaps(h, p.lo, p.hi);
      FilesApart(target, f, h);
      MinAtMostMax(f, tables);
      MinAtMostMax(h, tables);
      if Below(f.maxKey, p.lo) && Below(h.maxKey, f.minKey) {
        BelowAtMost(h.maxKey, f.minKey, f.maxKey);
        BelowTransitive(h.maxKey, f.maxKey, p.lo);
      }
      if Below(p.hi, f.minKey) && Below(f.maxKey, h.minKey) {
        BelowAtMost(p.hi, f.minKey, f.maxKey);
        BelowTransitive(p.hi, f.maxKey, h.minKey);
      }
    }
  }

  lemma FilesApart(files: seq<FileMeta>, f: FileMeta, g: FileMeta)
    requires Ascending(files) && f in files && g in files && f != g
    ensures Below(f.maxKey, g.minKey) || Below(g.maxKey, f.minKey)
  {
    var i :| 0 <= i < |files| && files[i] == f;
    var j :| 0 <= j < |files| && files[j] == g;
    if i < j {
      assert Below(files[i].maxKey, files[j].minKey);
    } else {
      assert Below(files[j].maxKey, files[i].minKey);
    }
  }

  lemma {:induction false} ExcludedBeside(p: Plan, snap: Version, tables: Tables, f: FileMeta, k: Key)
    requires WellFormed(snap, tables) && PlanOk(p, snap, tables)
    requires f in snap[p.source + 1] && f !in p.tgt && LevelGet(p.outs, tables, k).Some?
    ensures Below(f.maxKey, p.lo) ==> Below(f.maxKey, k)
    ensures Below(p.hi, f.minKey) ==> Below(k, f.minKey)
  {
    hide PlanOk, WellFormed;
    var h := OutputKeyHeld(p, snap, tables, k);
    ExcludedBesideFile(p, snap, tables, f, h);
    if Below(f.maxKey, p.lo) { BelowAtMost(f.maxKey, h.minKey, k); }
    if Below(p.hi, f.minKey) { AtMostBelow(k, h.maxKey, f.minKey); }
  }

  /** Outputs may span gaps between merged files, yet never touch a file left behind. */
  lemma {:induction false} OutputsApart(p: Plan, snap: Version, tables: Tables, f: FileMeta, g: FileMeta)
    requires WellFormed(snap, tables) && PlanOk(p, snap, tables)
    requires f in snap[p.source + 1] && f !in p.tgt && g in p.outs
    ensures Below(f.maxKey, g.minKey) || Below(g.maxKey, f.minKey)
  {
    EndsHeld(p.outs, tables, g);
    ExcludedBeside(p, snap, tables, f, g.minKey);
    ExcludedBeside(p, snap, tables, f, g.maxKey);
    assert !Overlaps(f, p.lo, p.hi);
  }

  // -------------------------------------------------------- committed levels

  ghost predicate Survivors(rest: seq<FileMeta>, p: Plan, target: seq<FileMeta>) {
    forall f :: f in rest <==> f in target && f !in p.tgt
  }

  /** The kept part of the target level is exactly the files that were not merged. */
  lemma {:induction false} TargetKept(p: Plan, snap: Version, tables: Tables)
    requires WellFormed(snap, tables) && PlanOk(p, snap, tables)
    ensures Survivors(Kept(PlanEdit(p), p.source + 1, snap[p.source + 1]), p, snap[p.source + 1])
  {
    var t := p.source + 1;
    assert LevelOk(t, snap[t]) && TablesOk(snap[t], tables);
    forall f | f in snap[t] ensures Deletes(PlanEdit(p), t, f.number) <==> f in p.tgt {
      PlanDeletes(p, t, f.number);
      forall g | g in p.tgt && g.number == f.number ensures g == f {
        NumberNamesFile(t, snap[t], tables, f, g);
      }
    }
  }

  lemma {:induction false} KeptAscending(edit: Edit, level: nat, files: seq<FileMeta>)
    requires Ascending(files)
    ensures Ascending(Kept(edit, level, files))
  {
    if files != [] {
      var n := |files| - 1;
      KeptAscending(edit, level, files[..n]);
      forall f | f in Kept(edit, level, files[..n]) ensures Below(f.maxKey, files[n].minKey) {
        assert f in files[..n];
      }
    }
  }

  lemma AscendingFromApart(level: nat, s: seq<FileMeta>, r: seq<FileMeta>, tables: Tables)
    requires level > 0 && Ordered(level, r) && TablesOk(s, tables)
    requires forall f :: f in r <==> f in s
    requires forall f, g :: f in s && g in s && f != g ==> Below(f.maxKey, g.minKey) || Below(g.maxKey, f.minKey)
    ensures Ascending(r) && TablesOk(r, tables)
  {
    forall i, j | 0 <= i < j < |r| ensures Below(r[i].maxKey, r[j].minKey) {
      KeyOrder();
      assert Before(level, r[i], r[j]);
      MinAtMostMax(r[i], tables);
      MinAtMostMax(r[j], tables);
      assert r[i] in s && r[j] in s;
    }
  }

  /** Kept and new files of the target level, before sorting, are pairwise apart. */
  lemma {:induction false} TargetApart(p: Plan, snap: Version, tables: Tables)
    requires WellFormed(snap, tables) && PlanOk(p, snap, tables)
    ensures var s := Kept(PlanEdit(p), p.source + 1, snap[p.source + 1]) + p.outs;
            && TablesOk(s, tables)
            && (forall i, j :: 0 <= i < j < |s| ==> Below(s[i].maxKey, s[j].minKey) || Below(s[j].maxKey, s[i].minKey))
  {
    var t := p.source + 1;
    var rest := Kept(PlanEdit(p), t, snap[t]);
    assert LevelOk(t, snap[t]) && TablesOk(snap[t], tables);
    TargetKept(p, snap, tables);
    KeptAscending(PlanEdit(p), t, snap[t]);
    forall f, g | f in rest && g in p.outs ensures Below(f.maxKey, g.minKey) || Below(g.maxKey, f.minKey) {
      OutputsApart(p, snap, tables, f, g);
    }
  }

  lemma ApartComparable(level: nat, s: seq<FileMeta>, tables: Tables, i: nat, j: nat)
    requires level > 0 && i < |s| && j < |s| && TablesOk(s, tables)
    requires Below(s[i].maxKey, s[j].minKey)
    ensures Before(level, s[i], s[j])
  {
    MinAtMostMax(s[i], tables);
    KeyOrder();
  }

  lemma {:induction false} TargetCommitted(p: Plan, snap: Version, tables: Tables)
    requires WellFormed(snap, tables) && PlanOk(p, snap, tables)
    ensures var t := p.source + 1;
            var after := ApplyLevel(PlanEdit(p), t, snap[t]);
            var rest := Kept(PlanEdit(p), t, snap[t]);
            && Ascending(after) && TablesOk(after, tables)
            && Survivors(rest, p, snap[t])
            && (forall f :: f in after <==> f in p.outs || f in rest)
  {
    hide Sort, Kept, AddedAt, Ascending, MergesTo, WellFormed, Ordered;
    var t := p.source + 1;
    var rest := Kept(PlanEdit(p), t, snap[t]);
    var s := rest + p.outs;
    TargetKept(p, snap, tables);
    TargetApart(p, snap, tables);
    AddedOfAt(t, p.outs, t);
    forall i, j | 0 <= i < j < |s| ensures Before(t, s[i], s[j]) || Before(t, s[j], s[i]) {
      if Below(s[i].maxKey, s[j].minKey) {
        ApartComparable(t, s, tables, i, j);
      } else {
        ApartComparable(t, s, tables, j, i);
      }
    }
    SortOrdered(t, s);
    SortMembers(t, s);
    AscendingFromApart(t, s, Sort(t, s), tables);
  }

  lemma {:induction false} KeptNothing(edit: Edit, level: nat, files: seq<FileMeta>)
    requires forall f :: f in files ==> Deletes(edit, level, f.number)
    ensures Kept(edit, level, files) == []
  {
    if files != [] {
      KeptNothing(edit, level, files[..|files| - 1]);
    }
  }

  /** What the source level becomes: the flushes that arrived meanwhile, or all but its first file. */
  function SourceAfter(p: Plan, v: Version): seq<FileMeta>
    requires p.source < MAX_LEVELS && |p.src| <= |v[p.source]|
  {
    if p.source == 0 then v[0][..|v[0]| - |p.src|] else v[p.source][|p.src|..]
  }

  lemma {:induction false} NumbersMiss(p: Plan, files: seq<FileMeta>)
    requires forall f, g :: f in files && g in p.src ==> f.number != g.number
    ensures Kept(PlanEdit(p), p.source, files) == files
    ensures Kept(PlanEdit(p), p.source, p.src) == []
  {
    var edit := PlanEdit(p);
    forall f | f in p.src ensures Deletes(edit, p.source, f.number) { PlanDeletes(p, p.source, f.number); }
    KeptNothing(edit, p.source, p.src);
    forall f | f in files ensures !Deletes(edit, p.source, f.number) { PlanDeletes(p, p.source, f.number); }
    KeptAll(edit, p.source, files);
  }

  lemma {:induction false} SourceParts(p: Plan, snap: Version, v: Version, tables: Tables, newer: seq<FileMeta>)
    requires PlanOk(p, snap, tables) && FlushedSince(snap, v, newer)
    ensures p.source < MAX_LEVELS - 1 && |p.src| <= |v[p.source]|
    ensures v[p.source] == if p.source == 0 then SourceAfter(p, v) + p.src else p.src + SourceAfter(p, v)
    ensures p.source > 0 ==> p.src == [v[p.source][0]]
  {
    hide MergesTo, Ascending, TablesOk;
    if p.source == 0 {
      assert v[0] == newer + p.src;
      assert SourceAfter(p, v) == newer;
    }
  }

  /** The files that stay carry other numbers than the files merged. */
  lemma {:induction false} SourceNumbers(p: Plan, snap: Version, v: Version, tables: Tables, newer: seq<FileMeta>)
    requires WellFormed(v, tables) && PlanOk(p, snap, tables) && FlushedSince(snap, v, newer)
    ensures |p.src| <= |v[p.source]|
    ensures v[p.source] == if p.source == 0 then SourceAfter(p, v) + p.src else p.src + SourceAfter(p, v)
    ensures forall f, g :: f in SourceAfter(p, v) && g in p.src ==> f.number != g.number
  {
    hide PlanOk, SourceAfter;
    SourceParts(p, snap, v, tables, newer);
    var files := v[p.source];
    assert LevelOk(p.source, files) && TablesOk(files, tables);
    var stay := SourceAfter(p, v);
    if p.source == 0 {
      NewerNumbers(stay, p.src);
    } else {
      RestNumbers(files, tables);
      assert stay == files[1..];
    }
  }

  lemma NewerNumbers(newer: seq<FileMeta>, older: seq<FileMeta>)
    requires NewestFirst(newer + older)
    ensures forall f, g :: f in newer && g in older ==> f.number != g.number
  {
    forall f, g | f in newer && g in older ensures f.number != g.number {
      var i :| 0 <= i < |newer| && newer[i] == f;
      var j :| 0 <= j < |older| && older[j] == g;
      assert (newer + older)[i] == f && (newer + older)[|newer| + j] == g;
    }
  }

  lemma RestNumbers(files: seq<FileMeta>, tables: Tables)
    requires files != [] && Ascending(files) && TablesOk(files, tables)
    ensures forall f :: f in files[1..] ==> f.number != files[0].number
  {
    forall f | f in files[1..] ensures f.number != files[0].number {
      var i :| 0 <= i < |files[1..]| && files[1..][i] == f;
      assert files[i + 1] == f && files[0] in files;
      AscendingNumbers(files, tables, 0, i + 1);
    }
  }

  lemma AscendingNumbers(files: seq<FileMeta>, tables: Tables, i: nat, j: nat)
    requires Ascending(files) && i < j < |files|
    requires TableOk(files[i], tables) && TableOk(files[j], tables)
    ensures files[i].number != files[j].number
  {
    assert Below(files[i].maxKey, files[j].minKey);
    MinAtMostMax(files[i], tables);
  }

  lemma {:induction false} SourceKept(p: Plan, snap: Version, v: Version, tables: Tables, newer: seq<FileMeta>)
    requires WellFormed(v, tables) && PlanOk(p, snap, tables) && FlushedSince(snap, v, newer)
    ensures |p.src| <= |v[p.source]|
    ensures Kept(PlanEdit(p), p.source, v[p.source]) == SourceAfter(p, v)
  {
    hide Kept, MergesTo, TablesOk, WellFormed;
    var edit := PlanEdit(p);
    SourceNumbers(p, snap, v, tables, newer);
    var r := SourceAfter(p, v);
    NumbersMiss(p, r);
    KeptAppend(edit, p.source, r, p.src);
    KeptAppend(edit, p.source, p.src, r);
    assert r + [] == r && [] + r == r;
  }

  lemma {:induction false} SourceCommitted(p: Plan, snap: Version, v: Version, tables: Tables, newer: seq<FileMeta>)
    requires WellFormed(v, tables) && PlanOk(p, snap, tables) && FlushedSince(snap, v, newer)
    ensures |p.src| <= |v[p.source]|
    ensures ApplyLevel(PlanEdit(p), p.source, v[p.source]) == SourceAfter(p, v)
    ensures LevelOk(p.source, SourceAfter(p, v)) && TablesOk(SourceAfter(p, v), tables)
  {
    hide Sort, Kept, AddedAt, MergesTo, TablesOk, SourceAfter, WellFormed;
    SourceKept(p, snap, v, tables, newer);
    var r := SourceAfter(p, v);
    AddedOfAt(p.source + 1, p.outs, p.source);
    assert r + [] == r;
    SourceStaysOk(p, v, tables);
    LevelOrdered(p.source, r, tables);
    SortIdentity(p.source, r);
  }

  lemma {:induction false} SourceStaysOk(p: Plan, v: Version, tables: Tables)
    requires WellFormed(v, tables) && p.source < MAX_LEVELS && |p.src| <= |v[p.source]|
    ensures LevelOk(p.source, SourceAfter(p, v)) && TablesOk(SourceAfter(p, v), tables)
  {
    assert LevelOk(p.source, v[p.source]) && TablesOk(v[p.source], tables);
  }

  // ------------------------------------------------------------ the theorem

  /** The committed version, level by level. */
  function Committed(p: Plan, snap: Version, v: Version): Version
    requires p.source < MAX_LEVELS - 1 && |p.src| <= |v[p.source]|
  {
    v[p.source := SourceAfter(p, v)][p.source + 1 := ApplyLevel(PlanEdit(p), p.source + 1, snap[p.source + 1])]
  }

  /** Committing keeps the level invariants, whatever was flushed since the snapshot. */
  lemma {:induction false} CompactionInstalls(p: Plan, snap: Version, v: Version, tables: Tables, newer: seq<FileMeta>)
    requires WellFormed(snap, tables) && WellFormed(v, tables) && PlanOk(p, snap, tables)
    requires FlushedSince(snap, v, newer)
    ensures |p.src| <= |v[p.source]|
    ensures Apply(PlanEdit(p), v) == Committed(p, snap, v)
    ensures WellFormed(Apply(PlanEdit(p), v), tables)
  {
    hide ApplyLevel, MergesTo, Covers, Overlapping;
    SourceCommitted(p, snap, v, tables, newer);
    TargetCommitted(p, snap, tables);
    assert v[p.source + 1] == snap[p.source + 1];
    forall level | 0 <= level < MAX_LEVELS && level != p.source && level != p.source + 1
      ensures ApplyLevel(PlanEdit(p), level, v[level]) == v[level]
    {
      OtherLevel(p, v, tables, level);
    }
    assert Apply(PlanEdit(p), v) == Committed(p, snap, v);
  }

  /** A level that is neither source nor target stays as it is. */
  lemma {:induction false} OtherLevel(p: Plan, v: Version, tables: Tables, level: nat)
    requires WellFormed(v, tables) && level < MAX_LEVELS && level != p.source && level != p.source + 1
    ensures ApplyLevel(PlanEdit(p), level, v[level]) == v[level]
  {
    hide Sort, Kept, AddedAt, PlanEdit;
    var edit := PlanEdit(p);
    forall f | f in v[level] ensures !Deletes(edit, level, f.number) { PlanDeletes(p, level, f.number); }
    PlanAdds(p, level);
    assert LevelOk(level, v[level]) && TablesOk(v[level], tables);
    ApplyUntouched(edit, level, v[level], tables);
  }

  lemma {:induction false} PlanAdds(p: Plan, level: nat)
    ensures AddedAt(PlanEdit(p).added, level) == if level == p.source + 1 then p.outs else []
  {
    hide AddedAt;
    AddedOfAt(p.source + 1, p.outs, level);
  }

  /** A key inside the merged range can only be held by target files that were merged. */
  lemma {:induction false} RestMisses(p: Plan, snap: Version, tables: Tables, rest: seq<FileMeta>, k: Key)
    requires WellFormed(snap, tables) && PlanOk(p, snap, tables) && Survivors(rest, p, snap[p.source + 1])
    requires LevelGet(p.src, tables, k).Some?
    ensures LevelGet(rest, tables, k).None?
  {
    LevelGetNone(p.src, tables, k);
    LevelGetNone(rest, tables, k);
    var h :| h in p.src && FileGet(h, tables, k).Some?;
    forall f | f in rest ensures FileGet(f, tables, k).None? {
      assert !Overlaps(f, p.lo, p.hi);
      KeyOrder();
    }
  }

  /** The source level before: the part that stays, then the part merged. */
  lemma {:induction false} SourceSplit(p: Plan, snap: Version, v: Version, tables: Tables, newer: seq<FileMeta>, k: Key)
    requires WellFormed(v, tables) && PlanOk(p, snap, tables) && FlushedSince(snap, v, newer)
    ensures |p.src| <= |v[p.source]|
    ensures LevelGet(v[p.source], tables, k)
         == OrElse(LevelGet(SourceAfter(p, v), tables, k), LevelGet(p.src, tables, k))
  {
    var stay := SourceAfter(p, v);
    assert LevelOk(p.source, v[p.source]);
    if p.source == 0 {
      assert stay == newer && v[0] == newer + p.src;
      LevelGetAppend(newer, p.src, tables, k);
    } else {
      assert v[p.source] == p.src + stay;
      LevelGetUnion(v[p.source], stay, p.src, tables, k);
    }
  }

  lemma {:induction false} TargetSplit(p: Plan, snap: Version, tables: Tables, k: Key)
    requires WellFormed(snap, tables) && PlanOk(p, snap, tables)
    ensures var t := p.source + 1;
            var rest := Kept(PlanEdit(p), t, snap[t]);
            && LevelGet(snap[t], tables, k) == OrElse(LevelGet(p.tgt, tables, k), LevelGet(rest, tables, k))
            && LevelGet(ApplyLevel(PlanEdit(p), t, snap[t]), tables, k)
                 == OrElse(LevelGet(p.outs, tables, k), LevelGet(rest, tables, k))
            && (OrElse(LevelGet(p.src, tables, k), LevelGet(p.tgt, tables, k)).Some? ==>
                  LevelGet(rest, tables, k).None?)
  {
    var t := p.source + 1;
    var edit := PlanEdit(p);
    var rest := Kept(edit, t, snap[t]);
    TargetCommitted(p, snap, tables);
    var after := ApplyLevel(edit, t, snap[t]);
    assert LevelOk(t, snap[t]);
    LevelGetUnion(snap[t], p.tgt, rest, tables, k);
    LevelGetUnion(after, p.outs, rest, tables, k);
    if LevelGet(p.src, tables, k).Some? {
      RestMisses(p, snap, tables, rest, k);
    }
  }

  /** The two levels a compaction touches answer as before, except for tombstones dropped at the bottom. */
  lemma {:induction false} TouchedLevels(p: Plan, snap: Version, v: Version, tables: Tables, newer: seq<FileMeta>,
                                         k: Key)
    requires WellFormed(snap, tables) && WellFormed(v, tables) && PlanOk(p, snap, tables)
    requires FlushedSince(snap, v, newer)
    ensures |p.src| <= |v[p.source]|
    ensures var t := p.source + 1;
            var before := OrElse(LevelGet(v[p.source], tables, k), LevelGet(v[t], tables, k));
            var after := OrElse(LevelGet(SourceAfter(p, v), tables, k),
                                LevelGet(ApplyLevel(PlanEdit(p), t, snap[t]), tables, k));
            if t == MAX_LEVELS - 1 then Live(before) == Live(after) else before == after
  {
    hide LevelGet, ApplyLevel, Kept, SourceAfter;
    SourceSplit(p, snap, v, tables, newer, k);
    TargetSplit(p, snap, tables, k);
    assert v[p.source + 1] == snap[p.source + 1];
  }

  lemma {:induction false} LevelsGetAppend(a: seq<seq<FileMeta>>, b: seq<seq<FileMeta>>, tables: Tables, k: Key)
    ensures LevelsGet(a + b, tables, k) == OrElse(LevelsGet(a, tables, k), LevelsGet(b, tables, k))
  {
    if a == [] {
      assert a + b == b;
    } else {
      assert (a + b)[1..] == a[1..] + b;
      LevelsGetAppend(a[1..], b, tables, k);
    }
  }

  lemma {:induction false} VersionGetSplit(v: Version, s: nat, tables: Tables, k: Key)
    requires s < MAX_LEVELS - 1
    ensures VersionGet(v, tables, k)
         == OrElse(LevelsGet(v[..s], tables, k),
                   OrElse(OrElse(LevelGet(v[s], tables, k), LevelGet(v[s + 1], tables, k)),
                          LevelsGet(v[s + 2..], tables, k)))
  {
    assert v == v[..s] + v[s..];
    LevelsGetAppend(v[..s], v[s..], tables, k);
    assert v[s..][1..] == v[s + 1..] && v[s + 1..][1..] == v[s + 2..];
    assert LevelsGet(v[s..], tables, k) == OrElse(LevelGet(v[s], tables, k), LevelsGet(v[s + 1..], tables, k));
    assert LevelsGet(v[s + 1..], tables, k) == OrElse(LevelGet(v[s + 1], tables, k), LevelsGet(v[s + 2..], tables, k));
  }

  /** Compaction preserves meaning: no key's visible pointer changes when a compaction commits. */
  lemma {:induction false} CompactionPreserves(p: Plan, snap: Version, v: Version, tables: Tables,
                                               newer: seq<FileMeta>, k: Key)
    requires WellFormed(snap, tables) && WellFormed(v, tables) && PlanOk(p, snap, tables)
    requires FlushedSince(snap, v, newer)
    ensures Live(VersionGet(Apply(PlanEdit(p), v), tables, k)) == Live(VersionGet(v, tables, k))
  {
    hide LevelGet, ApplyLevel, SourceAfter, LevelsGet, Apply;
    var s := p.source;
    CompactionInstalls(p, snap, v, tables, newer);
    var w := Committed(p, snap, v);
    TouchedLevels(p, snap, v, tables, newer, k);
    VersionGetSplit(v, s, tables, k);
    VersionGetSplit(w, s, tables, k);
    assert w[..s] == v[..s] && w[s + 2..] == v[s + 2..];
    if s + 1 == MAX_LEVELS - 1 {
      assert v[s + 2..] == [];
      LevelsGetEmpty(tables, k);
    }
  }

  lemma LevelsGetEmpty(tables: Tables, k: Key)
    ensures LevelsGet([], tables, k).None?
  {
  }
}
