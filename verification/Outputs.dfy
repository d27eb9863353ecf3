/** Facts about the files a compaction reads and writes: runs, chunks and entry counts. */
module Outputs {
  import opened Keys
  import opened Lsm
  import opened Merge
  import opened Compaction

  // ----------------------------------------------------------- input files

  function ToRuns(level: nat, files: seq<FileMeta>, tables: Tables): (r: seq<Run>)
    requires forall f :: f in files ==> f.number in tables
  {
    seq(|files|, i requires 0 <= i < |files| => Run(level, files[i].number, tables[files[i].number]))
  }

  lemma {:induction false} RunsGetLevel(level: nat, files: seq<FileMeta>, tables: Tables, k: Key)
    requires TablesOk(files, tables)
    ensures RunsGet(ToRuns(level, files, tables), k) == LevelGet(files, tables, k)
  {
    if files != [] {
      assert forall f :: f in files[1..] ==> f in files;
      assert ToRuns(level, files, tables)[1..] == ToRuns(level, files[1..], tables);
      RunsGetLevel(level, files[1..], tables, k);
      FoundInRange(files[0], tables, k);
    }
  }

  lemma {:induction false} RunsGetAppend(a: seq<Run>, b: seq<Run>, k: Key)
    ensures RunsGet(a + b, k) == OrElse(RunsGet(a, k), RunsGet(b, k))
  {
    if a == [] {
      assert a + b == b;
    } else {
      assert (a + b)[1..] == a[1..] + b;
      RunsGetAppend(a[1..], b, k);
    }
  }

  /** Source files before target files, each group as its level lists it, are in rank order. */
  lemma InputRunsOk(source: nat, src: seq<FileMeta>, tgt: seq<FileMeta>, tables: Tables)
    requires TablesOk(src, tables) && TablesOk(tgt, tables)
    requires LevelOk(source, src) && Ascending(tgt)
    ensures RunsOk(ToRuns(source, src, tables) + ToRuns(source + 1, tgt, tables))
  {
    assert forall f :: f in src || f in tgt ==> f.number in tables;
    hide Sorted, TableOk, LevelOk, Ascending, Find;
    var runs := ToRuns(source, src, tables) + ToRuns(source + 1, tgt, tables);
    forall i | 0 <= i < |runs| ensures Sorted(runs[i].entries) {
      var f := if i < |src| then src[i] else tgt[i - |src|];
      TableSorted(f, tables);
    }
    forall i, j, k | 0 <= i < j < |runs| && Find(runs[i].entries, k).Some? && Find(runs[j].entries, k).Some?
      ensures Outranks(runs[i], runs[j])
    {
      RankOrder(source, src, tgt, tables, i, j, k);
    }
  }

  lemma RankOrder(source: nat, src: seq<FileMeta>, tgt: seq<FileMeta>, tables: Tables, i: nat, j: nat, k: Key)
    requires TablesOk(src, tables) && TablesOk(tgt, tables)
    requires LevelOk(source, src) && Ascending(tgt) && i < j < |src| + |tgt|
    requires var runs := ToRuns(source, src, tables) + ToRuns(source + 1, tgt, tables);
             Find(runs[i].entries, k).Some? && Find(runs[j].entries, k).Some?
    ensures var runs := ToRuns(source, src, tables) + ToRuns(source + 1, tgt, tables);
            Outranks(runs[i], runs[j])
  {
    hide LevelOk, Ascending, Find;
    if j < |src| {
      assert src[i] in src && src[j] in src;
      SameGroup(source, src, tables, i, j, k);
    } else if i >= |src| {
      assert tgt[i - |src|] in tgt && tgt[j - |src|] in tgt;
      DeepLevel(source + 1, tgt);
      SameGroup(source + 1, tgt, tables, i - |src|, j - |src|, k);
    }
  }

  lemma TableSorted(f: FileMeta, tables: Tables)
    requires TableOk(f, tables)
    ensures Sorted(tables[f.number])
  {
  }

  lemma DeepLevel(level: nat, files: seq<FileMeta>)
    requires level > 0 && Ascending(files)
    ensures LevelOk(level, files)
  {
  }

  lemma SameGroup(level: nat, files: seq<FileMeta>, tables: Tables, i: nat, j: nat, k: Key)
    requires LevelOk(level, files) && i < j < |files|
    requires TableOk(files[i], tables) && TableOk(files[j], tables)
    requires Find(tables[files[i].number], k).Some? && Find(tables[files[j].number], k).Some?
    ensures files[i].number > files[j].number
  {
    FoundInRange(files[i], tables, k);
    FoundInRange(files[j], tables, k);
    if level > 0 {
      assert Below(files[i].maxKey, files[j].minKey);
      AtMostBelow(k, files[i].maxKey, files[j].minKey);
    }
  }

  // --------------------------------------------------------- output chunks

  /** The estimate kept while a chunk fills: key bytes plus a 20-byte overhead per entry. */
  function ChunkBytes(es: seq<Entry>): nat {
    if es == [] then 0 else ChunkBytes(es[..|es| - 1]) + |es[|es| - 1].key| + 20
  }

  ghost function KeyBytes(es: seq<Entry>): nat {
    if es == [] then 0 else |es[0].key| + KeyBytes(es[1..])
  }

  lemma {:induction false} KeyBytesLast(es: seq<Entry>)
    requires es != []
    ensures KeyBytes(es) == KeyBytes(es[..|es| - 1]) + |es[|es| - 1].key|
  {
    if |es| > 1 {
      KeyBytesLast(es[1..]);
      assert es[1..][..|es| - 2] == es[..|es| - 1][1..];
    }
  }

  /** The estimate in all: twenty bytes for each entry and the bytes of the keys. */
  lemma {:induction false} ChunkEstimate(es: seq<Entry>)
    ensures ChunkBytes(es) == 20 * |es| + KeyBytes(es)
  {
    if es != [] {
      ChunkEstimate(es[..|es| - 1]);
      KeyBytesLast(es);
    }
  }

  function Concat(files: seq<FileMeta>, tables: Tables): seq<Entry>
    requires forall f :: f in files ==> f.number in tables
  {
    if files == [] then []
    else Concat(files[..|files| - 1], tables) + tables[files[|files| - 1].number]
  }

  /** A chunk is cut by the first entry that brings it to the threshold. */
  ghost predicate CutAt(es: seq<Entry>, threshold: nat, final: bool) {
    && es != []
    && ChunkBytes(es[..|es| - 1]) < threshold
    && (!final ==> ChunkBytes(es) >= threshold)
  }

  ghost predicate IsChunk(f: FileMeta, tables: Tables, threshold: nat, final: bool) {
    && f.number in tables
    && var es := tables[f.number];
    && CutAt(es, threshold, final)
    && f == FileMeta(f.number, ChunkBytes(es) + 24, es[0].key, es[|es| - 1].key)
  }

  ghost predicate Chunked(files: seq<FileMeta>, tables: Tables, threshold: nat, complete: bool) {
    forall i :: 0 <= i < |files| ==> IsChunk(files[i], tables, threshold, complete && i == |files| - 1)
  }

  lemma {:induction false} ConcatFrame(files: seq<FileMeta>, t1: Tables, t2: Tables)
    requires forall f :: f in files ==> f.number in t1 && f.number in t2 && t1[f.number] == t2[f.number]
    ensures Concat(files, t1) == Concat(files, t2)
  {
    if files != [] {
      ConcatFrame(files[..|files| - 1], t1, t2);
    }
  }

  lemma SortedParts(a: seq<Entry>, b: seq<Entry>)
    requires Sorted(a + b)
    ensures Sorted(a) && Sorted(b)
    ensures forall i, j :: 0 <= i < |a| && 0 <= j < |b| ==> Below(a[i].key, b[j].key)
  {
    forall i, j | 0 <= i < |a| && 0 <= j < |b| ensures Below(a[i].key, b[j].key) {
      assert (a + b)[i] == a[i] && (a + b)[|a| + j] == b[j];
    }
    forall i, j | 0 <= i < j < |b| ensures Below(b[i].key, b[j].key) {
      assert (a + b)[|a| + i] == b[i] && (a + b)[|a| + j] == b[j];
    }
    forall i, j | 0 <= i < j < |a| ensures Below(a[i].key, a[j].key) {
      assert (a + b)[i] == a[i] && (a + b)[j] == a[j];
    }
  }

  lemma {:induction false} FindConcat(a: seq<Entry>, b: seq<Entry>, k: Key)
    ensures Find(a + b, k) == OrElse(Find(a, k), Find(b, k))
  {
    if a == [] {
      assert a + b == b;
    } else {
      assert (a + b)[1..] == a[1..] + b;
      FindConcat(a[1..], b, k);
    }
  }

  /** Every key of a file is a key of the concatenation. */
  lemma {:induction false} InConcat(files: seq<FileMeta>, tables: Tables, f: FileMeta, e: Entry)
    requires forall g :: g in files ==> g.number in tables
    requires f in files && e in tables[f.number]
    ensures e in Concat(files, tables)
  {
    var n := |files| - 1;
    if f != files[n] {
      assert f in files[..n];
      InConcat(files[..n], tables, f, e);
    }
  }

  /** Chunks of a sorted stream are good tables with ascending ranges. */
  lemma {:induction false} ChunksOk(files: seq<FileMeta>, tables: Tables, threshold: nat, complete: bool)
    requires Chunked(files, tables, threshold, complete) && Sorted(Concat(files, tables))
    ensures TablesOk(files, tables) && Ascending(files)
  {
    hide ChunkBytes;
    if files != [] {
      var n := |files| - 1;
      var front, last := files[..n], files[n];
      assert IsChunk(last, tables, threshold, complete);
      forall i | 0 <= i < n ensures IsChunk(front[i], tables, threshold, false) {
        assert front[i] == files[i];
      }
      SortedParts(Concat(front, tables), tables[last.number]);
      ChunksOk(front, tables, threshold, false);
      assert TableOk(last, tables);
      forall f | f in front ensures Below(f.maxKey, last.minKey) {
        var fs := tables[f.number];
        InConcat(front, tables, f, fs[|fs| - 1]);
      }
      assert files == front + [last];
    }
  }

  /** Together the chunks answer for exactly the stream they were cut from. */
  lemma {:induction false} ChunksGet(files: seq<FileMeta>, tables: Tables, k: Key)
    requires TablesOk(files, tables)
    ensures LevelGet(files, tables, k) == Find(Concat(files, tables), k)
  {
    if files != [] {
      var n := |files| - 1;
      var front, last := files[..n], files[n];
      assert TableOk(last, tables);
      ChunksGet(front, tables, k);
      assert files == front + [last];
      LevelGetAppend(front, [last], tables, k);
      FindConcat(Concat(front, tables), tables[last.number], k);
      FoundInRange(last, tables, k);
    }
  }

  // ---------------------------------------------------------- entry counts

  function EntryCount(files: seq<FileMeta>, tables: Tables): nat {
    if files == [] then 0
    else
      var f := files[|files| - 1];
      EntryCount(files[..|files| - 1], tables) + if f.number in tables then |tables[f.number]| else 0
  }

  /** Entries weighed by how many levels they still have to go, plus one. */
  function Weight(v: Version, tables: Tables): nat {
    6 * EntryCount(v[0], tables) + 5 * EntryCount(v[1], tables) + 4 * EntryCount(v[2], tables)
    + 3 * EntryCount(v[3], tables) + 2 * EntryCount(v[4], tables) + EntryCount(v[5], tables)
  }

  lemma {:induction false} CountAppend(a: seq<FileMeta>, b: seq<FileMeta>, tables: Tables)
    ensures EntryCount(a + b, tables) == EntryCount(a, tables) + EntryCount(b, tables)
  {
    if b == [] {
      assert a + b == a;
    } else {
      assert (a + b)[..|a + b| - 1] == a + b[..|b| - 1];
      CountAppend(a, b[..|b| - 1], tables);
    }
  }

  lemma {:induction false} CountInsert(level: nat, s: seq<FileMeta>, x: FileMeta, tables: Tables)
    ensures EntryCount(Insert(level, s, x), tables) == EntryCount(s, tables) + EntryCount([x], tables)
  {
    if s == [] || !Before(level, x, s[|s| - 1]) {
      CountAppend(s, [x], tables);
    } else {
      var front, last := s[..|s| - 1], s[|s| - 1];
      assert s == front + [last];
      CountInsert(level, front, x, tables);
      CountAppend(front, [last], tables);
      CountAppend(Insert(level, front, x), [last], tables);
    }
  }

  lemma {:induction false} CountSort(level: nat, s: seq<FileMeta>, tables: Tables)
    ensures EntryCount(Sort(level, s), tables) == EntryCount(s, tables)
  {
    if s != [] {
      var front, last := s[..|s| - 1], s[|s| - 1];
      assert s == front + [last];
      CountSort(level, front, tables);
      CountInsert(level, Sort(level, front), last, tables);
      CountAppend(front, [last], tables);
    }
  }

  lemma {:induction false} CountSplit(edit: Edit, level: nat, files: seq<FileMeta>, lo: Key, hi: Key, tables: Tables)
    requires forall f :: f in files ==> (Deletes(edit, level, f.number) <==> Overlaps(f, lo, hi))
    ensures EntryCount(files, tables)
         == EntryCount(Kept(edit, level, files), tables) + EntryCount(Overlapping(files, lo, hi), tables)
  {
    if files != [] {
      var front, last := files[..|files| - 1], files[|files| - 1];
      assert files == front + [last];
      CountSplit(edit, level, front, lo, hi, tables);
      CountAppend(front, [last], tables);
      CountAppend(Kept(edit, level, front), [last], tables);
      CountAppend(Overlapping(front, lo, hi), [last], tables);
    }
  }

  lemma {:induction false} CountFrame(files: seq<FileMeta>, t1: Tables, t2: Tables)
    requires forall f :: f in files ==> f.number in t1 && f.number in t2 && t1[f.number] == t2[f.number]
    ensures EntryCount(files, t1) == EntryCount(files, t2)
  {
    if files != [] {
      CountFrame(files[..|files| - 1], t1, t2);
    }
  }

  lemma {:induction false} CountConcat(files: seq<FileMeta>, tables: Tables)
    requires forall f :: f in files ==> f.number in tables
    ensures EntryCount(files, tables) == |Concat(files, tables)|
  {
    if files != [] {
      CountConcat(files[..|files| - 1], tables);
    }
  }

  lemma {:induction false} CountRuns(level: nat, files: seq<FileMeta>, tables: Tables)
    requires forall f :: f in files ==> f.number in tables
    ensures Total(ToRuns(level, files, tables)) == EntryCount(files, tables)
  {
    if files != [] {
      assert ToRuns(level, files, tables)[..|files| - 1] == ToRuns(level, files[..|files| - 1], tables);
      CountRuns(level, files[..|files| - 1], tables);
    }
  }

  lemma {:induction false} TotalAppend(a: seq<Run>, b: seq<Run>)
    ensures Total(a + b) == Total(a) + Total(b)
  {
    if b == [] {
      assert a + b == a;
    } else {
      assert (a + b)[..|a + b| - 1] == a + b[..|b| - 1];
      TotalAppend(a, b[..|b| - 1]);
    }
  }

  ghost predicate Shrinks(p: Plan, tables: Tables) {
    EntryCount(p.outs, tables) <= EntryCount(p.src, tables) + EntryCount(p.tgt, tables)
  }

  lemma {:induction false} CountTarget(p: Plan, snap: Version, tables: Tables)
    requires WellFormed(snap, tables) && PlanOk(p, snap, tables)
    ensures var t := p.source + 1;
            EntryCount(ApplyLevel(PlanEdit(p), t, snap[t]), tables)
              == EntryCount(snap[t], tables) - EntryCount(p.tgt, tables) + EntryCount(p.outs, tables)
  {
    hide Sort, Kept, AddedAt, MergesTo;
    var t := p.source + 1;
    var edit := PlanEdit(p);
    var rest := Kept(edit, t, snap[t]);
    TargetKept(p, snap, tables);
    forall f | f in snap[t] ensures Deletes(edit, t, f.number) <==> Overlaps(f, p.lo, p.hi) {
      assert f in rest <==> f !in p.tgt;
    }
    CountSplit(edit, t, snap[t], p.lo, p.hi, tables);
    AddedOfAt(t, p.outs, t);
    CountSort(t, rest + p.outs, tables);
    CountAppend(rest, p.outs, tables);
  }

  lemma {:induction false} WeightBetween(v: Version, w: Version, s: nat, tables: Tables)
    requires s < MAX_LEVELS - 1
    requires forall l :: 0 <= l < MAX_LEVELS && l != s && l != s + 1 ==> w[l] == v[l]
    requires EntryCount(w[s], tables) < EntryCount(v[s], tables)
    requires EntryCount(w[s], tables) + EntryCount(w[s + 1], tables)
          <= EntryCount(v[s], tables) + EntryCount(v[s + 1], tables)
    ensures Weight(w, tables) < Weight(v, tables)
  {
    hide EntryCount;
    if s == 0 {} else if s == 1 {} else if s == 2 {} else if s == 3 {} else {}
  }

  /** With no flush in between, committing a compaction strictly lowers the weight. */
  lemma {:induction false} WeightFalls(p: Plan, v: Version, tables: Tables)
    requires WellFormed(v, tables) && PlanOk(p, v, tables) && Shrinks(p, tables)
    ensures Weight(Apply(PlanEdit(p), v), tables) < Weight(v, tables)
  {
    hide MergesTo, Apply, ApplyLevel, EntryCount, Ascending, SourceAfter, TablesOk, Weight;
    assert FlushedSince(v, v, []) by { assert [] + v[0] == v[0]; }
    CompactionInstalls(p, v, v, tables, []);
    SourceNumbers(p, v, v, tables, []);
    CountTarget(p, v, tables);
    CountAppend(SourceAfter(p, v), p.src, tables);
    CountAppend(p.src, SourceAfter(p, v), tables);
    SourceNonEmpty(p, v, tables);
    WeightBetween(v, Committed(p, v, v), p.source, tables);
  }

  lemma {:induction false} SourceNonEmpty(p: Plan, v: Version, tables: Tables)
    requires WellFormed(v, tables) && PlanOk(p, v, tables)
    ensures EntryCount(p.src, tables) > 0
  {
    assert TablesOk(v[p.source], tables);
    var f := p.src[|p.src| - 1];
    assert f in v[p.source];
    assert TableOk(f, tables);
  }
}
