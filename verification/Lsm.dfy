/** Versions of the tree: six levels of table files, point lookup, and version edits. */
module Lsm {
  import opened Keys

  const MAX_LEVELS: nat := 6

  datatype Entry = Entry(key: Key, ptr: Pointer)

  datatype FileMeta = FileMeta(number: nat, size: nat, minKey: Key, maxKey: Key)

  /** The table files on disk, by file number. */
  type Tables = map<nat, seq<Entry>>

  type Version = v: seq<seq<FileMeta>> | |v| == MAX_LEVELS witness [[], [], [], [], [], []]

  datatype Edit = Edit(nextFile: Option<nat>, deleted: seq<(nat, nat)>, added: seq<(nat, FileMeta)>)

  // ---------------------------------------------------------------- lookup

  ghost predicate Sorted(es: seq<Entry>) {
    forall i, j :: 0 <= i < j < |es| ==> Below(es[i].key, es[j].key)
  }

  function Find(es: seq<Entry>, k: Key): (r: Option<Pointer>)
    ensures r.None? <==> forall i :: 0 <= i < |es| ==> es[i].key != k
  {
    if es == [] then None
    else if es[0].key == k then Some(es[0].ptr)
    else
      var r := Find(es[1..], k);
      assert r.None? ==> forall i :: 0 < i < |es| ==> es[i] == es[1..][i - 1];
      assert forall i :: 0 <= i < |es| - 1 ==> es[1..][i] == es[i + 1];
      r
  }

  predicate InRange(f: FileMeta, k: Key) {
    AtMost(f.minKey, k) && AtMost(k, f.maxKey)
  }

  function FileGet(f: FileMeta, tables: Tables, k: Key): Option<Pointer> {
    if InRange(f, k) && f.number in tables then Find(tables[f.number], k) else None
  }

  function LevelGet(files: seq<FileMeta>, tables: Tables, k: Key): Option<Pointer> {
    if files == [] then None
    else OrElse(FileGet(files[0], tables, k), LevelGet(files[1..], tables, k))
  }

  function LevelsGet(levels: seq<seq<FileMeta>>, tables: Tables, k: Key): Option<Pointer> {
    if levels == [] then None
    else OrElse(LevelGet(levels[0], tables, k), LevelsGet(levels[1..], tables, k))
  }

  function VersionGet(v: Version, tables: Tables, k: Key): Option<Pointer> {
    LevelsGet(v, tables, k)
  }

  /** The version part of `get_pointer`: level by level, file by file, first hit wins. */
  method SearchVersion(v: Version, tables: Tables, k: Key) returns (r: Option<Pointer>)
    ensures r == Live(VersionGet(v, tables, k))
  {
    var level := 0;
    var found: Option<Pointer> := None;
    assert v[0..] == v;
    while level < MAX_LEVELS && found.None?
      invariant level <= MAX_LEVELS
      invariant VersionGet(v, tables, k) == OrElse(found, LevelsGet(v[level..], tables, k))
      decreases MAX_LEVELS - level
    {
      var files := v[level];
      var i := 0;
      assert files[0..] == files;
      while i < |files|
        invariant i <= |files|
        invariant LevelGet(files, tables, k) == LevelGet(files[i..], tables, k)
      {
        assert files[i..][1..] == files[i + 1..];
        var hit := FileGet(files[i], tables, k);
        if hit.Some? {
          found := hit;
          break;
        }
        i := i + 1;
      }
      assert v[level..][1..] == v[level + 1..];
      level := level + 1;
    }
    r := Live(found);
  }

  // -------------------------------------------------------- well-formedness

  ghost predicate TableOk(f: FileMeta, tables: Tables) {
    && f.number in tables
    && var es := tables[f.number];
    && |es| > 0 && Sorted(es)
    && f.minKey == es[0].key && f.maxKey == es[|es| - 1].key
  }

  ghost predicate TablesOk(files: seq<FileMeta>, tables: Tables) {
    forall f :: f in files ==> TableOk(f, tables)
  }

  /** Level 0: newest file first. */
  ghost predicate NewestFirst(files: seq<FileMeta>) {
    forall i, j :: 0 <= i < j < |files| ==> files[i].number > files[j].number
  }

  /** Levels 1-5: key ranges ascend and never touch. */
  ghost predicate Ascending(files: seq<FileMeta>) {
    forall i, j :: 0 <= i < j < |files| ==> Below(files[i].maxKey, files[j].minKey)
  }

  ghost predicate LevelOk(level: nat, files: seq<FileMeta>) {
    if level == 0 then NewestFirst(files) else Ascending(files)
  }

  ghost predicate WellFormed(v: Version, tables: Tables) {
    forall level :: 0 <= level < MAX_LEVELS ==> LevelOk(level, v[level]) && TablesOk(v[level], tables)
  }

  // ------------------------------------------------------------ table facts

  lemma FindAt(es: seq<Entry>, i: nat)
    requires Sorted(es) && i < |es|
    ensures Find(es, es[i].key) == Some(es[i].ptr)
  {
    KeyOrder();
    if i > 0 {
      assert es[0].key != es[i].key;
      assert es[1..][i - 1] == es[i];
      FindAt(es[1..], i - 1);
    }
  }

  /** A key found in a good table lies within the range its metadata gives. */
  lemma FoundInRange(f: FileMeta, tables: Tables, k: Key)
    requires TableOk(f, tables)
    ensures FileGet(f, tables, k) == Find(tables[f.number], k)
    ensures Find(tables[f.number], k).Some? ==> InRange(f, k)
  {
    KeyOrder();
  }

  lemma MinAtMostMax(f: FileMeta, tables: Tables)
    requires TableOk(f, tables)
    ensures AtMost(f.minKey, f.maxKey)
  {
    KeyOrder();
  }

  lemma LevelGetAppend(a: seq<FileMeta>, b: seq<FileMeta>, tables: Tables, k: Key)
    ensures LevelGet(a + b, tables, k) == OrElse(LevelGet(a, tables, k), LevelGet(b, tables, k))
  {
    if a == [] {
      assert a + b == b;
    } else {
      assert (a + b)[1..] == a[1..] + b;
      LevelGetAppend(a[1..], b, tables, k);
    }
  }

  lemma {:induction false} LevelGetNone(files: seq<FileMeta>, tables: Tables, k: Key)
    ensures LevelGet(files, tables, k).None? <==> forall f :: f in files ==> FileGet(f, tables, k).None?
  {
    if files != [] {
      LevelGetNone(files[1..], tables, k);
      assert files == [files[0]] + files[1..];
    }
  }

  /** A level is searched to a single answer when at most one of its files holds the key. */
  lemma {:induction false} LevelGetOnly(files: seq<FileMeta>, tables: Tables, k: Key, f: FileMeta)
    requires f in files && FileGet(f, tables, k).Some?
    requires forall g :: g in files && FileGet(g, tables, k).Some? ==> g == f
    ensures LevelGet(files, tables, k) == FileGet(f, tables, k)
  {
    if FileGet(files[0], tables, k).None? {
      assert f in files[1..];
      LevelGetOnly(files[1..], tables, k, f);
    }
  }

  /** Lookup is unchanged by files added to the directory under new numbers. */
  lemma LevelGetFrame(files: seq<FileMeta>, t1: Tables, t2: Tables, k: Key)
    requires forall f :: f in files ==> f.number in t1 && f.number in t2 && t1[f.number] == t2[f.number]
    ensures LevelGet(files, t1, k) == LevelGet(files, t2, k)
  {
  }

  // ------------------------------------------------------------------ edits

  predicate Deletes(edit: Edit, level: nat, number: nat) {
    (level, number) in edit.deleted
  }

  function Kept(edit: Edit, level: nat, files: seq<FileMeta>): (r: seq<FileMeta>)
    ensures forall f :: f in r <==> f in files && !Deletes(edit, level, f.number)
  {
    if files == [] then []
    else
      var rest := Kept(edit, level, files[..|files| - 1]);
      var f := files[|files| - 1];
      assert files == files[..|files| - 1] + [f];
      if Deletes(edit, level, f.number) then rest else rest + [f]
  }

  function AddedAt(added: seq<(nat, FileMeta)>, level: nat): (r: seq<FileMeta>)
    ensures forall f :: f in r <==> (level, f) in added
  {
    if added == [] then []
    else
      var rest := AddedAt(added[..|added| - 1], level);
      var a := added[|added| - 1];
      assert added == added[..|added| - 1] + [a];
      if a.0 == level then rest + [a.1] else rest
  }

  /** The comparison each level is kept sorted by. */
  predicate Before(level: nat, a: FileMeta, b: FileMeta) {
    if level == 0 then a.number > b.number else Below(a.minKey, b.minKey)
  }

  function Insert(level: nat, s: seq<FileMeta>, x: FileMeta): (r: seq<FileMeta>)
    ensures multiset(r) == multiset(s) + multiset{x}
  {
    if s == [] || !Before(level, x, s[|s| - 1]) then s + [x]
    else
      assert s == s[..|s| - 1] + [s[|s| - 1]];
      Insert(level, s[..|s| - 1], x) + [s[|s| - 1]]
  }

  function Sort(level: nat, s: seq<FileMeta>): (r: seq<FileMeta>)
    ensures multiset(r) == multiset(s)
  {
    if s == [] then []
    else
      assert s == s[..|s| - 1] + [s[|s| - 1]];
      Insert(level, Sort(level, s[..|s| - 1]), s[|s| - 1])
  }

  function ApplyLevel(edit: Edit, level: nat, files: seq<FileMeta>): seq<FileMeta> {
    Sort(level, Kept(edit, level, files) + AddedAt(edit.added, level))
  }

  function Apply(edit: Edit, v: Version): Version {
    seq(MAX_LEVELS, level requires 0 <= level < MAX_LEVELS => ApplyLevel(edit, level, v[level]))
  }

  ghost predicate Ordered(level: nat, s: seq<FileMeta>) {
    forall i, j :: 0 <= i < j < |s| ==> Before(level, s[i], s[j])
  }

  lemma BeforeAsymmetric(level: nat, a: FileMeta, b: FileMeta)
    requires Before(level, a, b)
    ensures !Before(level, b, a)
  {
    if level > 0 && Below(b.minKey, a.minKey) {
      BelowTransitive(a.minKey, b.minKey, a.minKey);
      BelowIrreflexive(a.minKey);
    }
  }

  lemma {:induction false} InsertOrdered(level: nat, s: seq<FileMeta>, x: FileMeta)
    requires Ordered(level, s)
    requires forall y :: y in s ==> Before(level, x, y) || Before(level, y, x)
    ensures Ordered(level, Insert(level, s, x))
  {
    hide Before;
    if s != [] && Before(level, x, s[|s| - 1]) {
      var front, last := s[..|s| - 1], s[|s| - 1];
      InsertOrdered(level, front, x);
      var r := Insert(level, front, x);
      forall i | 0 <= i < |r| ensures Before(level, r[i], last) {
        assert r[i] in multiset(r);
      }
    } else if s != [] {
      var last := s[|s| - 1];
      assert last in s;
      forall i | 0 <= i < |s| - 1 ensures Before(level, s[i], x) {
        BeforeTransitive(level, s[i], last, x);
      }
    }
  }

  lemma BeforeTransitive(level: nat, a: FileMeta, b: FileMeta, c: FileMeta)
    requires Before(level, a, b) && Before(level, b, c)
    ensures Before(level, a, c)
  {
    if level > 0 {
      BelowTransitive(a.minKey, b.minKey, c.minKey);
    }
  }

  /** Sorting files that are pairwise comparable leaves each level in strict order. */
  lemma {:induction false} SortOrdered(level: nat, s: seq<FileMeta>)
    requires forall i, j :: 0 <= i < j < |s| ==> Before(level, s[i], s[j]) || Before(level, s[j], s[i])
    ensures Ordered(level, Sort(level, s))
  {
    if s != [] {
      var front, last := s[..|s| - 1], s[|s| - 1];
      SortOrdered(level, front);
      forall y | y in Sort(level, front) ensures Before(level, last, y) || Before(level, y, last) {
        assert y in multiset(front);
      }
      InsertOrdered(level, Sort(level, front), last);
    }
  }

  lemma SortMembers(level: nat, s: seq<FileMeta>)
    ensures forall f :: f in Sort(level, s) <==> f in s
  {
    forall f ensures f in Sort(level, s) <==> f in s {
      assert f in Sort(level, s) <==> f in multiset(Sort(level, s));
      assert f in s <==> f in multiset(s);
    }
  }

  lemma {:induction false} SortIdentity(level: nat, s: seq<FileMeta>)
    requires Ordered(level, s)
    ensures Sort(level, s) == s
  {
    if s != [] {
      var front, last := s[..|s| - 1], s[|s| - 1];
      SortIdentity(level, front);
      if front != [] {
        BeforeAsymmetric(level, s[|s| - 2], last);
      }
      assert s == front + [last];
    }
  }

  lemma {:induction false} InsertFirst(level: nat, s: seq<FileMeta>, x: FileMeta)
    requires forall y :: y in s ==> Before(level, x, y)
    ensures Insert(level, s, x) == [x] + s
  {
    if s != [] {
      InsertFirst(level, s[..|s| - 1], x);
    }
  }

  lemma {:induction false} KeptAll(edit: Edit, level: nat, files: seq<FileMeta>)
    requires forall f :: f in files ==> !Deletes(edit, level, f.number)
    ensures Kept(edit, level, files) == files
  {
    if files != [] {
      KeptAll(edit, level, files[..|files| - 1]);
    }
  }

  lemma {:induction false} KeptAppend(edit: Edit, level: nat, a: seq<FileMeta>, b: seq<FileMeta>)
    ensures Kept(edit, level, a + b) == Kept(edit, level, a) + Kept(edit, level, b)
  {
    if b == [] {
      assert a + b == a;
    } else {
      assert (a + b)[..|a + b| - 1] == a + b[..|b| - 1];
      KeptAppend(edit, level, a, b[..|b| - 1]);
    }
  }

  lemma LevelOrdered(level: nat, files: seq<FileMeta>, tables: Tables)
    requires LevelOk(level, files) && TablesOk(files, tables)
    ensures Ordered(level, files)
  {
    if level > 0 {
      KeyOrder();
      forall i, j | 0 <= i < j < |files| ensures Before(level, files[i], files[j]) {
        MinAtMostMax(files[i], tables);
      }
    }
  }

  /** An edit leaves a level it does not mention as it was. */
  lemma ApplyUntouched(edit: Edit, level: nat, files: seq<FileMeta>, tables: Tables)
    requires LevelOk(level, files) && TablesOk(files, tables)
    requires forall f :: f in files ==> !Deletes(edit, level, f.number)
    requires AddedAt(edit.added, level) == []
    ensures ApplyLevel(edit, level, files) == files
  {
    KeptAll(edit, level, files);
    assert files + [] == files;
    LevelOrdered(level, files, tables);
    SortIdentity(level, files);
  }

  // ------------------------------------------------------------ flush edits

  /** The edit a flush commits: one new file on level 0. */
  function FlushEdit(f: FileMeta): Edit {
    Edit(None, [], [(0, f)])
  }

  ghost predicate IsNewest(f: FileMeta, v: Version) {
    forall g :: g in v[0] ==> g.number < f.number
  }

  /** Installing a flush puts its file in front of level 0 and changes nothing else. */
  lemma {:induction false} FlushInstalls(v: Version, tables: Tables, f: FileMeta)
    requires WellFormed(v, tables) && TableOk(f, tables) && IsNewest(f, v)
    ensures Apply(FlushEdit(f), v) == v[0 := [f] + v[0]]
    ensures WellFormed(Apply(FlushEdit(f), v), tables)
  {
    hide Kept, AddedAt, Sort;
    var edit := FlushEdit(f);
    FlushLevelZero(v[0], f);
    forall level | 0 < level < MAX_LEVELS ensures ApplyLevel(edit, level, v[level]) == v[level] {
      assert LevelOk(level, v[level]);
      AddedSingle(level, 0, f);
      ApplyUntouched(edit, level, v[level], tables);
    }
    assert Apply(edit, v) == v[0 := [f] + v[0]];
  }

  lemma AddedSingle(level: nat, at: nat, f: FileMeta)
    ensures AddedAt([(at, f)], level) == if level == at then [f] else []
  {
    assert [(at, f)][..0] == [];
  }

  lemma SortLast(level: nat, s: seq<FileMeta>, x: FileMeta)
    ensures Sort(level, s + [x]) == Insert(level, Sort(level, s), x)
  {
    assert (s + [x])[..|s|] == s;
  }

  lemma FlushLevelZero(files: seq<FileMeta>, f: FileMeta)
    requires NewestFirst(files) && forall g :: g in files ==> g.number < f.number
    ensures ApplyLevel(FlushEdit(f), 0, files) == [f] + files
    ensures NewestFirst([f] + files)
  {
    hide Kept, AddedAt, Sort, Insert;
    KeptAll(FlushEdit(f), 0, files);
    AddedSingle(0, 0, f);
    SortLast(0, files, f);
    assert Ordered(0, files);
    SortIdentity(0, files);
    InsertFirst(0, files, f);
  }

  /** After a flush the tree answers with the new table first, then as before. */
  lemma {:induction false} FlushMeaning(v: Version, tables: Tables, f: FileMeta, k: Key)
    requires WellFormed(v, tables) && TableOk(f, tables) && IsNewest(f, v)
    ensures VersionGet(Apply(FlushEdit(f), v), tables, k)
         == OrElse(Find(tables[f.number], k), VersionGet(v, tables, k))
  {
    FlushInstalls(v, tables, f);
    FoundInRange(f, tables, k);
    var w := v[0 := [f] + v[0]];
    assert w[1..] == v[1..];
    assert w[0][1..] == v[0];
  }
}
