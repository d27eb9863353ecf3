/** Recovery from the manifest, and when it rebuilds the version in memory. */
module Manifest {
  import opened Keys
  import opened Codec
  import opened Lsm
  import opened EditCodec
  import opened Compaction
  import opened Versions

  const RECORD_LIMIT: nat := 64 * 1024 * 1024

  const EMPTY: Version := [[], [], [], [], [], []]

  /** A record recovery will read: every field fits, and the whole is at most 64 MiB. */
  ghost predicate RecordOk(e: Edit) {
    Fits(e) && |EncodeEdit(e)| <= 0x400_0000
  }

  ghost function Records(log: seq<Edit>): Bytes {
    if log == [] then [] else Record(log[0]) + Records(log[1..])
  }

  // --------------------------------------------------------------- recovery

  /** An edit's effect on a level during recovery: deletions count on levels 0 and 1 only. */
  function RecoverLevel(e: Edit, level: nat, files: seq<FileMeta>): seq<FileMeta> {
    (if level <= 1 then Kept(e, level, files) else files) + AddedAt(e.added, level)
  }

  function RecoverEdit(e: Edit, v: Version): Version {
    seq(MAX_LEVELS, level requires 0 <= level < MAX_LEVELS => RecoverLevel(e, level, v[level]))
  }

  /** What a manifest record at the front of `b` holds, if it is whole and readable. */
  function ReadRecord(b: Bytes): (r: Option<(Edit, nat)>)
    ensures r.Some? ==> 4 <= r.value.1 <= |b|
  {
    if |b| < 4 then None
    else
      var size := Value32(b[..4]);
      if size > RECORD_LIMIT || |b| < 4 + size then None
      else
        var e := DecodeEdit(b[4..4 + size]);
        if e.None? then None else Some((e.value, 4 + size))
  }

  function NextAfter(e: Edit, next: nat): nat {
    if e.nextFile.Some? then e.nextFile.value else next
  }

  /** Reads records until one is missing, torn or wrong. */
  function RecoverFrom(b: Bytes, v: Version, next: nat): (Version, nat)
    decreases |b|
  {
    var r := ReadRecord(b);
    if r.None? then (v, next)
    else RecoverFrom(b[r.value.1..], RecoverEdit(r.value.0, v), NextAfter(r.value.0, next))
  }

  function SortAll(v: Version): Version {
    seq(MAX_LEVELS, level requires 0 <= level < MAX_LEVELS => Sort(level, v[level]))
  }

  function Recovered(manifest: Bytes): (Version, nat) {
    var (v, next) := RecoverFrom(manifest, EMPTY, 1);
    (SortAll(v), next)
  }

  // -------------------------------------------------------------- the loops

  function Without(files: seq<FileMeta>, n: nat): seq<FileMeta> {
    if files == [] then []
    else
      var f := files[|files| - 1];
      var rest := Without(files[..|files| - 1], n);
      if f.number == n then rest else rest + [f]
  }

  /** Only the first `n` deletions of an edit. */
  ghost function FirstDeletions(e: Edit, n: nat): Edit
    requires n <= |e.deleted|
  {
    Edit(None, e.deleted[..n], [])
  }

  lemma {:induction false} DeleteOneMore(e: Edit, n: nat, level: nat, files: seq<FileMeta>)
    requires n < |e.deleted|
    ensures Kept(FirstDeletions(e, n + 1), level, files)
         == if e.deleted[n].0 == level then Without(Kept(FirstDeletions(e, n), level, files), e.deleted[n].1)
            else Kept(FirstDeletions(e, n), level, files)
  {
    if files != [] {
      var f := files[|files| - 1];
      DeleteOneMore(e, n, level, files[..|files| - 1]);
      DeletesOneMore(e, n, level, f.number);
      var kept := Kept(FirstDeletions(e, n), level, files[..|files| - 1]);
      assert (kept + [f])[..|kept|] == kept;
    }
  }

  lemma DeletesOneMore(e: Edit, n: nat, level: nat, number: nat)
    requires n < |e.deleted|
    ensures Deletes(FirstDeletions(e, n + 1), level, number)
       <==> Deletes(FirstDeletions(e, n), level, number) || e.deleted[n] == (level, number)
  {
    assert e.deleted[..n + 1] == e.deleted[..n] + [e.deleted[n]];
  }

  lemma {:induction false} KeptByDeletions(e: Edit, e': Edit, level: nat, files: seq<FileMeta>)
    requires e.deleted == e'.deleted
    ensures Kept(e, level, files) == Kept(e', level, files)
  {
    if files != [] { KeptByDeletions(e, e', level, files[..|files| - 1]); }
  }

  /** Erases what an edit deletes on the first two levels. */
  method EraseDeleted(e: Edit, v: Version) returns (levels: seq<seq<FileMeta>>)
    ensures |levels| == MAX_LEVELS
    ensures forall l :: 0 <= l < MAX_LEVELS ==> levels[l] == if l <= 1 then Kept(e, l, v[l]) else v[l]
  {
    hide Kept, Without, FirstDeletions;
    levels := v;
    var i := 0;
    NoDeletions(e, v);
    while i < |e.deleted|
      invariant i <= |e.deleted| && |levels| == MAX_LEVELS
      invariant levels[0] == Kept(FirstDeletions(e, i), 0, v[0]) && levels[1] == Kept(FirstDeletions(e, i), 1, v[1])
      invariant levels[2..] == v[2..]
    {
      var (level, n) := e.deleted[i];
      DeleteOneMore(e, i, 0, v[0]);
      DeleteOneMore(e, i, 1, v[1]);
      if level <= 1 {
        levels := levels[level := Without(levels[level], n)];
      }
      i := i + 1;
    }
    AllDeletions(e, v);
    assert forall l :: 2 <= l < MAX_LEVELS ==> levels[l] == levels[2..][l - 2];
  }

  /** Applies one recovered edit: erase, then append what it adds. */
  method ApplyRecovered(e: Edit, v: Version) returns (w: Version)
    ensures w == RecoverEdit(e, v)
  {
    hide Kept, AddedAt;
    var base := EraseDeleted(e, v);
    var levels := base;
    var j := 0;
    NothingAddedYet(e.added);
    while j < |e.added|
      invariant j <= |e.added| && |levels| == MAX_LEVELS
      invariant forall l :: 0 <= l < MAX_LEVELS ==> levels[l] == base[l] + AddedAt(e.added[..j], l)
    {
      var (level, f) := e.added[j];
      AddOneMore(e.added, j);
      if level < MAX_LEVELS {
        levels := levels[level := levels[level] + [f]];
      }
      j := j + 1;
    }
    assert e.added[..j] == e.added;
    w := levels;
  }

  lemma NothingAddedYet(added: seq<(nat, FileMeta)>)
    ensures forall l :: AddedAt(added[..0], l) == []
  {
  }

  lemma {:induction false} NoDeletions(e: Edit, v: Version)
    ensures Kept(FirstDeletions(e, 0), 0, v[0]) == v[0] && Kept(FirstDeletions(e, 0), 1, v[1]) == v[1]
  {
    KeptAll(FirstDeletions(e, 0), 0, v[0]);
    KeptAll(FirstDeletions(e, 0), 1, v[1]);
  }

  lemma {:induction false} AllDeletions(e: Edit, v: Version)
    ensures Kept(FirstDeletions(e, |e.deleted|), 0, v[0]) == Kept(e, 0, v[0])
    ensures Kept(FirstDeletions(e, |e.deleted|), 1, v[1]) == Kept(e, 1, v[1])
  {
    hide Kept;
    assert e.deleted[..|e.deleted|] == e.deleted;
    KeptByDeletions(FirstDeletions(e, |e.deleted|), e, 0, v[0]);
    KeptByDeletions(FirstDeletions(e, |e.deleted|), e, 1, v[1]);
  }

  lemma AddOneMore(added: seq<(nat, FileMeta)>, j: nat)
    requires j < |added|
    ensures forall l :: AddedAt(added[..j + 1], l)
                     == AddedAt(added[..j], l) + if added[j].0 == l then [added[j].1] else []
  {
    assert added[..j + 1][..j] == added[..j];
  }

  /** Rebuilds the version and the file number from the manifest's bytes. */
  method Recover(manifest: Bytes) returns (v: Version, next: nat)
    ensures (v, next) == Recovered(manifest)
  {
    hide RecoverEdit, ReadRecord;
    v, next := EMPTY, 1;
    var p := 0;
    assert manifest[0..] == manifest;
    while true
      invariant 0 <= p <= |manifest|
      invariant RecoverFrom(manifest, EMPTY, 1) == RecoverFrom(manifest[p..], v, next)
      decreases |manifest| - p
    {
      var r := ReadRecord(manifest[p..]);
      if r.None? { break; }
      assert manifest[p..][r.value.1..] == manifest[p + r.value.1..];
      v := ApplyRecovered(r.value.0, v);
      next := NextAfter(r.value.0, next);
      p := p + r.value.1;
    }
    v := SortAll(v);
  }

  // --------------------------------------------------------- reading a log back

  lemma ReadWhole(e: Edit, rest: Bytes)
    requires RecordOk(e)
    ensures ReadRecord(Record(e) + rest) == Some((e, |Record(e)|)) && |Record(e)| == 4 + |EncodeEdit(e)|
    ensures (Record(e) + rest)[|Record(e)|..] == rest
  {
    hide EncodeEdit, DecodeEdit, U32, Fits, Value32;
    var body, b := EncodeEdit(e), Record(e) + rest;
    assert b[..4] == U32(|body|) && b[4..4 + |body|] == body;
    RoundTrip32(|body|);
    EditRoundTrip(e);
  }

  /** A record cut short is not read. */
  lemma ReadCut(e: Edit, n: nat)
    requires RecordOk(e) && n < |Record(e)|
    ensures ReadRecord(Record(e)[..n]) == None
  {
    hide EncodeEdit, DecodeEdit, U32, Fits, Value32;
    var body, b := EncodeEdit(e), Record(e)[..n];
    if n >= 4 {
      assert b[..4] == U32(|body|);
      RoundTrip32(|body|);
    }
  }

  ghost function AccAfter(log: seq<Edit>, v: Version): Version {
    if log == [] then v else AccAfter(log[1..], RecoverEdit(log[0], v))
  }

  ghost function NextAfterAll(log: seq<Edit>, next: nat): nat {
    if log == [] then next else NextAfterAll(log[1..], NextAfter(log[0], next))
  }

  /** Recovery goes through whole records and on to whatever follows. */
  lemma {:induction false} RecoverThrough(log: seq<Edit>, rest: Bytes, v: Version, next: nat)
    requires forall e :: e in log ==> RecordOk(e)
    ensures RecoverFrom(Records(log) + rest, v, next) == RecoverFrom(rest, AccAfter(log, v), NextAfterAll(log, next))
    decreases |log|
  {
    hide RecordOk, Record, RecoverEdit, ReadRecord;
    if log == [] {
      assert Records(log) + rest == rest;
    } else {
      var tail := Records(log[1..]) + rest;
      assert Records(log) + rest == Record(log[0]) + tail;
      assert log[0] in log;
      ReadWhole(log[0], tail);
      RecoverThrough(log[1..], rest, RecoverEdit(log[0], v), NextAfter(log[0], next));
    }
  }

  lemma {:induction false} StopsAt(b: Bytes, v: Version, next: nat)
    requires ReadRecord(b) == None
    ensures RecoverFrom(b, v, next) == (v, next)
  {
  }

  /** A manifest cut inside its last record recovers as if that record had not been written. */
  lemma TornTail(log: seq<Edit>, e: Edit, n: nat)
    requires (forall x :: x in log ==> RecordOk(x)) && RecordOk(e) && n < |Record(e)|
    ensures Recovered(Records(log) + Record(e)[..n]) == Recovered(Records(log))
  {
    hide RecoverFrom, RecordOk, Record, Records, SortAll, ReadRecord;
    var cut := Record(e)[..n];
    RecoverThrough(log, cut, EMPTY, 1);
    RecoverThrough(log, [], EMPTY, 1);
    ReadCut(e, n);
    StopsAt(cut, AccAfter(log, EMPTY), NextAfterAll(log, 1));
    NothingToRead();
    StopsAt([], AccAfter(log, EMPTY), NextAfterAll(log, 1));
    assert Records(log) + [] == Records(log);
  }

  lemma NothingToRead()
    ensures ReadRecord([]) == None
  {
  }

  lemma RecoveredLog(log: seq<Edit>)
    requires forall e :: e in log ==> RecordOk(e)
    ensures Recovered(Records(log)) == (SortAll(AccAfter(log, EMPTY)), NextAfterAll(log, 1))
  {
    hide RecoverFrom, RecordOk, Records, SortAll, ReadRecord;
    RecoverThrough(log, [], EMPTY, 1);
    NothingToRead();
    StopsAt([], AccAfter(log, EMPTY), NextAfterAll(log, 1));
    assert Records(log) + [] == Records(log);
  }

  // ------------------------------------------------------ recovery and memory

  /** The version in memory after a log of edits. */
  ghost function After(log: seq<Edit>): Version {
    if log == [] then EMPTY else Apply(log[|log| - 1], After(log[..|log| - 1]))
  }

  /** What recovery holds, unsorted. */
  ghost function Acc(log: seq<Edit>): Version {
    if log == [] then EMPTY else RecoverEdit(log[|log| - 1], Acc(log[..|log| - 1]))
  }

  lemma {:induction false} AccIsAfter(log: seq<Edit>, v: Version)
    requires log != []
    ensures AccAfter(log, v) == RecoverEdit(log[|log| - 1], AccAfter(log[..|log| - 1], v))
    ensures forall n :: NextAfterAll(log, n) == NextAfter(log[|log| - 1], NextAfterAll(log[..|log| - 1], n))
    decreases |log|
  {
    hide RecoverEdit, NextAfter;
    if |log| > 1 {
      var k := |log| - 1;
      AccIsAfter(log[1..], RecoverEdit(log[0], v));
      assert log[1..][..k - 1] == log[..k][1..];
    } else {
      assert log[1..] == [] && log[..0] == [];
    }
  }

  lemma {:induction false} AccAfterEmpty(log: seq<Edit>)
    ensures AccAfter(log, EMPTY) == Acc(log)
  {
    hide RecoverEdit, AccAfter;
    if log == [] {
      AccNothing();
    } else {
      AccIsAfter(log, EMPTY);
      AccAfterEmpty(log[..|log| - 1]);
    }
  }

  lemma AccNothing()
    ensures AccAfter([], EMPTY) == EMPTY
  {
  }

  /** Files an edit deletes from a level of the version it applies to. */
  ghost function Dropped(e: Edit, level: nat, files: seq<FileMeta>): multiset<FileMeta> {
    multiset(files) - multiset(Kept(e, level, files))
  }

  /** Deletions that recovery skips: those above level 1. */
  ghost function Missed(log: seq<Edit>, level: nat): multiset<FileMeta>
    requires level < MAX_LEVELS
  {
    if log == [] || level <= 1 then multiset{}
    else
      var front := log[..|log| - 1];
      Missed(front, level) + Dropped(log[|log| - 1], level, After(front)[level])
  }

  /** No edit of the log deletes a file present on levels 2 to 5. */
  ghost predicate MissesNothing(log: seq<Edit>) {
    forall level :: 2 <= level < MAX_LEVELS ==> LevelKept(log, level)
  }

  ghost predicate LevelKept(log: seq<Edit>, level: nat)
    requires level < MAX_LEVELS
  {
    forall i :: 0 <= i < |log| ==> KeptAt(log, i, level)
  }

  ghost predicate KeptAt(log: seq<Edit>, i: nat, level: nat)
    requires i < |log| && level < MAX_LEVELS
  {
    forall f :: f in After(log[..i])[level] ==> !Deletes(log[i], level, f.number)
  }

  lemma {:induction false} KeptCount(e: Edit, level: nat, files: seq<FileMeta>, f: FileMeta)
    ensures multiset(Kept(e, level, files))[f] == if Deletes(e, level, f.number) then 0 else multiset(files)[f]
  {
    if files != [] {
      var n := |files| - 1;
      KeptCount(e, level, files[..n], f);
      assert files == files[..n] + [files[n]];
    }
  }

  lemma KeptSame(e: Edit, level: nat, a: seq<FileMeta>, b: seq<FileMeta>)
    requires multiset(a) == multiset(b)
    ensures multiset(Kept(e, level, a)) == multiset(Kept(e, level, b))
  {
    hide Kept, Deletes;
    forall f: FileMeta ensures multiset(Kept(e, level, a))[f] == multiset(Kept(e, level, b))[f] {
      KeptCount(e, level, a, f);
      KeptCount(e, level, b, f);
    }
  }

  lemma KeptWithin(e: Edit, level: nat, files: seq<FileMeta>)
    ensures multiset(files) == multiset(Kept(e, level, files)) + Dropped(e, level, files)
  {
    hide Kept, Deletes;
    forall f: FileMeta ensures multiset(Kept(e, level, files))[f] <= multiset(files)[f] {
      KeptCount(e, level, files, f);
    }
  }

  /** Level by level, recovery holds what memory holds and whatever deletions it skipped. */
  lemma {:induction false} AccHolds(log: seq<Edit>, level: nat)
    requires level < MAX_LEVELS
    ensures multiset(Acc(log)[level]) == multiset(After(log)[level]) + Missed(log, level)
  {
    hide Kept, AddedAt, Sort, Dropped;
    if log != [] {
      var front, e := log[..|log| - 1], log[|log| - 1];
      AccHolds(front, level);
      var acc, mem, added := Acc(front)[level], After(front)[level], AddedAt(e.added, level);
      KeptWithin(e, level, mem);
      if level <= 1 { KeptSame(e, level, acc, mem); }
    }
  }

  lemma {:induction false} OrderedUnique(level: nat, a: seq<FileMeta>, b: seq<FileMeta>)
    requires Ordered(level, a) && Ordered(level, b) && multiset(a) == multiset(b)
    ensures a == b
  {
    hide Before;
    assert |multiset(a)| == |a| && |multiset(b)| == |b|;
    if a != [] {
      LastIsLast(level, a, b);
      DropLast(a);
      DropLast(b);
      var n := |a| - 1;
      OrderedUnique(level, a[..n], b[..n]);
      assert a == a[..n] + [a[n]] && b == b[..n] + [b[n]];
    }
  }

  lemma DropLast(a: seq<FileMeta>)
    requires a != []
    ensures multiset(a[..|a| - 1]) == multiset(a) - multiset{a[|a| - 1]}
  {
    assert a == a[..|a| - 1] + [a[|a| - 1]];
  }

  lemma LastIsLast(level: nat, a: seq<FileMeta>, b: seq<FileMeta>)
    requires Ordered(level, a) && Ordered(level, b) && multiset(a) == multiset(b) && a != [] && b != []
    ensures a[|a| - 1] == b[|b| - 1]
  {
    hide Before;
    var x, y := a[|a| - 1], b[|b| - 1];
    assert x in multiset(b) && y in multiset(a);
    var i :| 0 <= i < |b| && b[i] == x;
    var j :| 0 <= j < |a| && a[j] == y;
    if i < |b| - 1 && j < |a| - 1 {
      assert Before(level, b[i], b[|b| - 1]) && Before(level, a[j], a[|a| - 1]);
      BeforeAsymmetric(level, x, y);
    }
  }

  /** Sorting any arrangement of a strictly ordered level gives that level. */
  lemma SortUnique(level: nat, s: seq<FileMeta>, t: seq<FileMeta>)
    requires Ordered(level, t) && multiset(s) == multiset(t)
    ensures Sort(level, s) == t
  {
    hide Before, Sort;
    forall i, j | 0 <= i < j < |s| ensures Before(level, s[i], s[j]) || Before(level, s[j], s[i]) {
      Comparable(level, s, t, i, j);
    }
    SortOrdered(level, s);
    OrderedUnique(level, Sort(level, s), t);
  }

  lemma Comparable(level: nat, s: seq<FileMeta>, t: seq<FileMeta>, i: nat, j: nat)
    requires Ordered(level, t) && multiset(s) == multiset(t) && i < j < |s|
    ensures Before(level, s[i], s[j]) || Before(level, s[j], s[i])
  {
    hide Before;
    OnceEach(level, t, s[i]);
    assert s[i] in multiset(t) && s[j] in multiset(t);
    if s[i] == s[j] {
      TwiceIn(s, i, j);
    }
    var a :| 0 <= a < |t| && t[a] == s[i];
    var b :| 0 <= b < |t| && t[b] == s[j];
  }

  lemma TwiceIn(s: seq<FileMeta>, i: nat, j: nat)
    requires i < j < |s| && s[i] == s[j]
    ensures multiset(s)[s[i]] >= 2
  {
    assert s == s[..i] + [s[i]] + s[i + 1..j] + [s[j]] + s[j + 1..];
  }

  lemma {:induction false} OnceEach(level: nat, t: seq<FileMeta>, f: FileMeta)
    requires Ordered(level, t)
    ensures multiset(t)[f] <= 1
  {
    if t != [] {
      var n := |t| - 1;
      OnceEach(level, t[..n], f);
      assert t == t[..n] + [t[n]];
      assert forall i :: 0 <= i < n ==> t[..n][i] == t[i] && Before(level, t[i], t[n]);
      BeforeIrreflexive(level, t[n]);
    }
  }

  lemma BeforeIrreflexive(level: nat, f: FileMeta)
    ensures !Before(level, f, f)
  {
    BelowIrreflexive(f.minKey);
  }

  lemma {:induction false} DroppedNone(e: Edit, level: nat, files: seq<FileMeta>)
    ensures Dropped(e, level, files) == multiset{} <==> forall f :: f in files ==> !Deletes(e, level, f.number)
  {
    hide Kept, Deletes;
    forall f ensures f in Dropped(e, level, files) <==> f in files && Deletes(e, level, f.number) {
      KeptCount(e, level, files, f);
      assert f in files <==> f in multiset(files);
    }
  }

  lemma {:induction false} MissedAtLevel(log: seq<Edit>, level: nat)
    requires 2 <= level < MAX_LEVELS
    ensures Missed(log, level) == multiset{} <==> LevelKept(log, level)
  {
    hide After, Dropped, KeptAt;
    if log != [] {
      var n := |log| - 1;
      var front := log[..n];
      MissedAtLevel(front, level);
      LastKept(log, level);
      forall i | 0 <= i < n ensures KeptAt(front, i, level) == KeptAt(log, i, level) {
        SameKept(log, n, i, level);
      }
      SumEmpty(Missed(front, level), Dropped(log[n], level, After(front)[level]));
    }
  }

  lemma LastKept(log: seq<Edit>, level: nat)
    requires log != [] && level < MAX_LEVELS
    ensures var n := |log| - 1;
            Dropped(log[n], level, After(log[..n])[level]) == multiset{} <==> KeptAt(log, n, level)
  {
    hide After, Dropped;
    DroppedNone(log[|log| - 1], level, After(log[..|log| - 1])[level]);
  }

  lemma SameKept(log: seq<Edit>, n: nat, i: nat, level: nat)
    requires i < n <= |log| && level < MAX_LEVELS
    ensures KeptAt(log[..n], i, level) == KeptAt(log, i, level)
  {
    hide After;
    assert log[..n][..i] == log[..i];
  }

  lemma SumEmpty(a: multiset<FileMeta>, b: multiset<FileMeta>)
    ensures a + b == multiset{} <==> a == multiset{} && b == multiset{}
  {
    if a + b == multiset{} {
      forall f ensures f !in a && f !in b { assert f !in a + b; }
    }
  }

  lemma MissedExact(log: seq<Edit>)
    ensures MissesNothing(log) <==> forall l :: 0 <= l < MAX_LEVELS ==> NoneMissed(log, l)
  {
    hide LevelKept, Missed;
    forall l | 0 <= l < MAX_LEVELS ensures NoneMissed(log, l) <==> l < 2 || LevelKept(log, l) {
      if l < 2 { MissedLow(log, l); } else { MissedAtLevel(log, l); }
    }
  }

  ghost predicate NoneMissed(log: seq<Edit>, level: nat)
    requires level < MAX_LEVELS
  {
    Missed(log, level) == multiset{}
  }

  lemma MissedLow(log: seq<Edit>, l: nat)
    requires l <= 1
    ensures Missed(log, l) == multiset{}
  {
  }

  /** Recovery rebuilds the version in memory exactly when no deletion above level 1 was logged since the
      manifest was last rewritten; the file number is always the last one logged. */
  lemma RecoveryExact(log: seq<Edit>)
    requires (forall e :: e in log ==> RecordOk(e)) && forall l :: 0 <= l < MAX_LEVELS ==> Ordered(l, After(log)[l])
    ensures Recovered(Records(log)).0 == After(log) <==> MissesNothing(log)
    ensures Recovered(Records(log)).1 == NextAfterAll(log, 1)
  {
    hide Recovered, Records, Acc, After, Missed, RecordOk, Ordered, Sort;
    MissedExact(log);
    hide MissesNothing;
    RecoveredLog(log);
    AccAfterEmpty(log);
    var r: Version := SortAll(Acc(log));
    assert Recovered(Records(log)).0 == r;
    forall l | 0 <= l < MAX_LEVELS ensures r[l] == After(log)[l] <==> NoneMissed(log, l) {
      AccHolds(log, l);
      assert r[l] == Sort(l, Acc(log)[l]);
      if NoneMissed(log, l) { SortUnique(l, Acc(log)[l], After(log)[l]); }
    }
    SameLevels(r, After(log));
    if MissesNothing(log) {
      forall l | 0 <= l < MAX_LEVELS ensures r[l] == After(log)[l] {
        assert NoneMissed(log, l);
      }
    } else {
      var l :| 0 <= l < MAX_LEVELS && !NoneMissed(log, l);
      assert r[l] != After(log)[l];
      assert r != After(log);
    }
  }

  lemma {:induction false} SameLevels(v: Version, w: Version)
    ensures v == w <==> forall l :: 0 <= l < MAX_LEVELS ==> v[l] == w[l]
  {
  }

  /** Edits that delete only on levels 0 and 1 miss nothing. */
  lemma LowDeletionsMissNothing(log: seq<Edit>)
    requires forall i, d :: 0 <= i < |log| && d in log[i].deleted ==> d.0 <= 1
    ensures MissesNothing(log)
  {
    hide After;
  }

  /** One deletion of a file above level 1 is enough to lose. */
  lemma DeletionMissed(log: seq<Edit>, e: Edit, level: nat, f: FileMeta)
    requires 2 <= level < MAX_LEVELS && f in After(log)[level] && Deletes(e, level, f.number)
    ensures !MissesNothing(log + [e])
  {
    hide After, Deletes;
    assert (log + [e])[..|log|] == log && (log + [e])[|log|] == e;
    assert !KeptAt(log + [e], |log|, level);
    assert !LevelKept(log + [e], level);
  }

  /** The smallest case that goes wrong: a file of level 2 compacted to level 3 comes back on level 2. */
  lemma DeletionLost()
    ensures var f, g := FileMeta(1, 0, [0], [0]), FileMeta(2, 0, [0], [0]);
            var e1, e2 := Edit(Some(1), [], [(2, f)]), Edit(Some(2), [(2, 1)], [(3, g)]);
            && RecordOk(e1) && RecordOk(e2)
            && After([e1, e2])[2] == [] && Recovered(Records([e1, e2])).0 != After([e1, e2])
  {
    hide Recovered, Records, EncodeEdit, Sort, Kept, AddedAt, After, MissesNothing;
    var f, g := FileMeta(1, 0, [0], [0]), FileMeta(2, 0, [0], [0]);
    var e1, e2 := Edit(Some(1), [], [(2, f)]), Edit(Some(2), [(2, 1)], [(3, g)]);
    SmallEdit(e1);
    SmallEdit(e2);
    AddThenCompact(f, g, e1, e2);
    DeletionMissed([e1], e2, 2, f);
    assert [e1] + [e2] == [e1, e2];
    RecoveryExact([e1, e2]);
  }

  lemma AddThenCompact(f: FileMeta, g: FileMeta, e1: Edit, e2: Edit)
    requires f.number == 1 && e1 == Edit(Some(1), [], [(2, f)]) && e2 == Edit(Some(2), [(2, 1)], [(3, g)])
    ensures f in After([e1])[2]
    ensures forall l :: 0 <= l < MAX_LEVELS ==>
              After([e1, e2])[l] == (if l == 3 then [g] else []) && Ordered(l, After([e1, e2])[l])
  {
    hide Sort, Kept, AddedAt;
    assert [e1, e2][..1] == [e1] && [e1][..0] == [];
    var v := Apply(e1, EMPTY);
    forall l | 0 <= l < MAX_LEVELS ensures v[l] == if l == 2 then [f] else [] {
      AddedSingle(l, 2, f);
      KeptNothing(e1, l, EMPTY[l]);
      assert Kept(e1, l, EMPTY[l]) + AddedAt(e1.added, l) == if l == 2 then [f] else [];
      SortOne(l, f);
    }
    forall l | 0 <= l < MAX_LEVELS ensures Apply(e2, v)[l] == if l == 3 then [g] else [] {
      KeptNothing(e2, l, v[l]);
      AddedSingle(l, 3, g);
      assert Kept(e2, l, v[l]) + AddedAt(e2.added, l) == if l == 3 then [g] else [];
      SortOne(l, g);
    }
  }

  lemma SortOne(level: nat, f: FileMeta)
    ensures Sort(level, [f]) == [f] && Sort(level, []) == []
  {
    assert [f][..0] == [];
  }

  lemma SmallEdit(e: Edit)
    requires Fits(e) && |e.deleted| <= 1 && |e.added| <= 1
    requires forall i :: 0 <= i < |e.added| ==> |e.added[i].1.minKey| <= 1 && |e.added[i].1.maxKey| <= 1
    ensures RecordOk(e)
  {
    hide U32, U64;
    assert |EncodeNext(e.nextFile)| <= 8;
    assert |EncodeDeleted(e.deleted)| <= 12 by {
      if e.deleted != [] { assert e.deleted[1..] == []; }
    }
    assert |EncodeAdded(e.added)| <= 30 by {
      if e.added != [] {
        assert e.added[1..] == [];
        assert |EncodeFile(e.added[0].0, e.added[0].1)| <= 26;
      }
    }
  }

  // ------------------------------------------------------ logging as it goes

  /** A manifest that is the log of edits leading to `v`, the last of them carrying `next`. */
  ghost predicate Reflects(manifest: Bytes, log: seq<Edit>, v: Version, next: nat) {
    && manifest == Records(log) && (forall e :: e in log ==> RecordOk(e))
    && After(log) == v && NextAfterAll(log, 1) == next
  }

  lemma {:induction false} RecordsAppend(log: seq<Edit>, e: Edit)
    ensures Records(log + [e]) == Records(log) + Record(e)
  {
    hide Record;
    if log == [] {
      assert (log + [e])[1..] == [];
    } else {
      assert (log + [e])[1..] == log[1..] + [e];
      RecordsAppend(log[1..], e);
    }
  }

  lemma {:induction false} AddedAppend(a: seq<(nat, FileMeta)>, b: seq<(nat, FileMeta)>, level: nat)
    ensures AddedAt(a + b, level) == AddedAt(a, level) + AddedAt(b, level)
  {
    if b == [] {
      assert a + b == a;
    } else {
      assert (a + b)[..|a + b| - 1] == a + b[..|b| - 1];
      AddedAppend(a, b[..|b| - 1], level);
    }
  }

  lemma {:induction false} SnapshotLevel(v: Version, from: nat, level: nat)
    requires from <= MAX_LEVELS && level < MAX_LEVELS
    ensures AddedAt(SnapshotFiles(v, from), level) == if from <= level then v[level] else []
    decreases MAX_LEVELS - from
  {
    hide AddedAt;
    if from < MAX_LEVELS {
      SnapshotLevel(v, from + 1, level);
      AddedOfAt(from, v[from], level);
      AddedAppend(AddedOf(from, v[from]), SnapshotFiles(v, from + 1), level);
    } else {
      NothingAdded(level);
    }
  }

  lemma NothingAdded(level: nat)
    ensures AddedAt([], level) == []
  {
  }

  /** A snapshot edit applied to the empty version gives the version it describes. */
  lemma {:induction false} SnapshotRebuilds(v: Version, next: nat)
    requires forall l :: 0 <= l < MAX_LEVELS ==> Ordered(l, v[l])
    ensures Apply(SnapshotEdit(v, next), EMPTY) == v
  {
    hide Sort, AddedAt, Kept, SnapshotFiles, Ordered;
    var e := SnapshotEdit(v, next);
    forall l | 0 <= l < MAX_LEVELS ensures ApplyLevel(e, l, EMPTY[l]) == v[l] {
      SnapshotLevel(v, 0, l);
      KeptAll(e, l, []);
      assert [] + v[l] == v[l];
      SortIdentity(l, v[l]);
    }
    SameLevels(Apply(e, EMPTY), v);
  }

  /** Logging an edit, with or without a rewrite, leaves a manifest that reflects the new version. */
  lemma {:induction false} LoggingReflects(manifest: Bytes, log: seq<Edit>, v: Version, next: nat, e: Edit,
                                           next': nat)
    returns (log': seq<Edit>)
    requires Reflects(manifest, log, v, next) && e.nextFile == Some(next') && RecordOk(e)
    requires RecordOk(SnapshotEdit(Apply(e, v), next'))
             && forall l :: 0 <= l < MAX_LEVELS ==> Ordered(l, Apply(e, v)[l])
    ensures Reflects(LoggedManifest(manifest, e, Apply(e, v), next'), log', Apply(e, v), next')
    ensures log' == if |manifest + Record(e)| > MANIFEST_LIMIT then [SnapshotEdit(Apply(e, v), next')] else log + [e]
  {
    hide Record, Records, RecordOk, Apply, SnapshotEdit;
    var w := Apply(e, v);
    if |manifest + Record(e)| > MANIFEST_LIMIT {
      var snap := SnapshotEdit(w, next');
      log' := [snap];
      RecordsAppend([], snap);
      assert [] + [snap] == [snap];
      SnapshotRebuilds(w, next');
      OneEdit(snap, next', w);
    } else {
      log' := log + [e];
      RecordsAppend(log, e);
      OneMoreEdit(log, e, next');
    }
  }

  lemma {:induction false} OneEdit(e: Edit, next: nat, w: Version)
    requires e == SnapshotEdit(w, next) && Apply(e, EMPTY) == w
    ensures Records([]) == [] && After([e]) == w && NextAfterAll([e], 1) == next
  {
    hide Apply;
    assert [e][..0] == [] && [e][1..] == [];
  }

  lemma OneMoreEdit(log: seq<Edit>, e: Edit, next: nat)
    requires e.nextFile == Some(next)
    ensures After(log + [e]) == Apply(e, After(log)) && NextAfterAll(log + [e], 1) == next
  {
    hide Apply, NextAfterAll;
    assert (log + [e])[..|log|] == log;
    AccIsAfter(log + [e], EMPTY);
  }

  /** The manifest after committing edits one by one from an empty store. */
  ghost function ManifestAfter(edits: seq<Edit>): Bytes {
    if edits == [] then []
    else
      var e := edits[|edits| - 1];
      LoggedManifest(ManifestAfter(edits[..|edits| - 1]), e, After(edits), NextAfter(e, 1))
  }

  /** A commit the manifest can carry: stamped, of readable size as is and as a snapshot, levels left in order. */
  ghost predicate CommitOk(edits: seq<Edit>, i: nat)
    requires i < |edits|
  {
    var e, v := edits[i], After(edits[..i + 1]);
    && e.nextFile.Some? && RecordOk(e) && RecordOk(SnapshotEdit(v, e.nextFile.value))
    && forall l :: 0 <= l < MAX_LEVELS ==> Ordered(l, v[l])
  }

  ghost predicate LowDeletions(e: Edit) {
    forall d :: d in e.deleted ==> d.0 <= 1
  }

  /** The edits the manifest describes: those since its last rewrite, after the snapshot that made it. */
  ghost function LogAfter(edits: seq<Edit>): seq<Edit> {
    if edits == [] then []
    else
      var front, e := edits[..|edits| - 1], edits[|edits| - 1];
      if |ManifestAfter(front) + Record(e)| > MANIFEST_LIMIT then [SnapshotEdit(After(edits), NextAfter(e, 1))]
      else LogAfter(front) + [e]
  }

  ghost predicate RunOk(edits: seq<Edit>) {
    forall i :: 0 <= i < |edits| ==> CommitOk(edits, i)
  }

  lemma RunFront(edits: seq<Edit>)
    requires RunOk(edits) && edits != []
    ensures RunOk(edits[..|edits| - 1])
  {
    hide After, RecordOk, Ordered, SnapshotEdit;
    var front := edits[..|edits| - 1];
    forall i | 0 <= i < |front| ensures CommitOk(front, i) {
      assert CommitOk(edits, i) && front[..i + 1] == edits[..i + 1];
    }
  }

  /** After any sequence of commits, through any number of rewrites, the manifest reflects the version. */
  lemma {:induction false} RunReflects(edits: seq<Edit>)
    requires RunOk(edits)
    ensures Reflects(ManifestAfter(edits), LogAfter(edits), After(edits), NextAfterAll(edits, 1))
  {
    hide RecordOk, Ordered, Reflects, Apply, NextAfterAll, SnapshotFiles, Record;
    if edits == [] {
      EmptyReflects();
    } else {
      var n := |edits| - 1;
      var front, e := edits[..n], edits[n];
      assert CommitOk(edits, n) && edits[..n + 1] == edits;
      RunFront(edits);
      RunReflects(front);
      var log := LoggingReflects(ManifestAfter(front), LogAfter(front), After(front), NextAfterAll(front, 1), e,
                                 e.nextFile.value);
      OneMoreEdit(front, e, e.nextFile.value);
      assert front + [e] == edits;
    }
  }

  lemma EmptyReflects()
    ensures Reflects([], [], EMPTY, 1) && NextAfterAll([], 1) == 1
  {
  }

  lemma RunOrdered(edits: seq<Edit>, l: nat)
    requires RunOk(edits) && l < MAX_LEVELS
    ensures Ordered(l, After(edits)[l])
  {
    hide Ordered, RecordOk, SnapshotEdit;
    if edits == [] {
      EmptyOrdered(l);
    } else {
      assert CommitOk(edits, |edits| - 1) && edits[..|edits|] == edits;
    }
  }

  lemma EmptyOrdered(l: nat)
    requires l < MAX_LEVELS
    ensures Ordered(l, After([])[l])
  {
  }

  /** Over whole runs with rewrites: recovery gives the version in memory if and only if no edit since the last
      rewrite deleted a file above level 1; the file number is always the last logged. */
  lemma RunRecoversExactly(edits: seq<Edit>)
    requires RunOk(edits)
    ensures Recovered(ManifestAfter(edits)).0 == After(edits) <==> MissesNothing(LogAfter(edits))
    ensures Recovered(ManifestAfter(edits)).1 == NextAfterAll(edits, 1)
  {
    hide ManifestAfter, Recovered, After, RecordOk, Ordered, NextAfterAll, LogAfter, MissesNothing, RunOk;
    RunReflects(edits);
    forall l | 0 <= l < MAX_LEVELS ensures Ordered(l, After(edits)[l]) {
      RunOrdered(edits, l);
    }
    RecoveryExact(LogAfter(edits));
  }

  lemma {:induction false} LogIsLow(edits: seq<Edit>)
    requires forall i :: 0 <= i < |edits| ==> LowDeletions(edits[i])
    ensures forall i :: 0 <= i < |LogAfter(edits)| ==> LowDeletions(LogAfter(edits)[i])
  {
    hide ManifestAfter, Record, SnapshotFiles, After;
    if edits != [] {
      LogIsLow(edits[..|edits| - 1]);
    }
  }

  /** With deletions on levels 0 and 1 only, recovery always gives the version in memory. */
  lemma RunRecovers(edits: seq<Edit>)
    requires RunOk(edits) && forall i :: 0 <= i < |edits| ==> LowDeletions(edits[i])
    ensures Recovered(ManifestAfter(edits)) == (After(edits), NextAfterAll(edits, 1))
  {
    hide ManifestAfter, Recovered, After, NextAfterAll, LogAfter, RunOk;
    RunRecoversExactly(edits);
    LogIsLow(edits);
    var log := LogAfter(edits);
    assert forall i, d :: 0 <= i < |log| && d in log[i].deleted ==> LowDeletions(log[i]);
    LowDeletionsMissNothing(log);
  }

  /** A crash while the record of the last commit is being appended leaves a manifest that recovers the version
      before it, exactly when that version would have been recovered. */
  lemma TornCommit(edits: seq<Edit>, e: Edit, n: nat)
    requires RunOk(edits) && RecordOk(e) && n < |Record(e)|
    ensures var r := Recovered(ManifestAfter(edits) + Record(e)[..n]);
            (r.0 == After(edits) <==> MissesNothing(LogAfter(edits))) && r.1 == NextAfterAll(edits, 1)
  {
    hide ManifestAfter, Recovered, After, RecordOk, NextAfterAll, LogAfter, MissesNothing, RunOk, Record;
    RunReflects(edits);
    TornTail(LogAfter(edits), e, n);
    RunRecoversExactly(edits);
  }

  /** The manifest is replaced by a snapshot exactly when an append takes it past one mebibyte. */
  lemma RewriteRule(edits: seq<Edit>, e: Edit)
    requires e.nextFile.Some?
    ensures var appended := ManifestAfter(edits) + Record(e);
            ManifestAfter(edits + [e])
              == if |appended| > 0x10_0000 then Record(SnapshotEdit(After(edits + [e]), e.nextFile.value)) else appended
  {
    hide Record, After, SnapshotEdit;
    assert (edits + [e])[..|edits|] == edits;
  }

  /** Recovery takes a record of up to 64 MiB and stops at a longer one. */
  lemma LongRecordStops(log: seq<Edit>, n: nat, rest: Bytes)
    requires (forall e :: e in log ==> RecordOk(e)) && 0x400_0000 < n < TWO32
    ensures Recovered(Records(log) + (U32(n) + rest)) == Recovered(Records(log))
  {
    hide RecoverFrom, RecordOk, Record, Records, SortAll, U32, Value32;
    RecoverThrough(log, U32(n) + rest, EMPTY, 1);
    RecoverThrough(log, [], EMPTY, 1);
    assert Records(log) + [] == Records(log);
    LongRecord(n, rest);
    StopsAt(U32(n) + rest, AccAfter(log, EMPTY), NextAfterAll(log, 1));
    StopsAt([], AccAfter(log, EMPTY), NextAfterAll(log, 1));
  }

  lemma LongRecord(n: nat, rest: Bytes)
    requires 0x400_0000 < n < TWO32
    ensures ReadRecord(U32(n) + rest).None? && ReadRecord([]).None?
  {
    hide U32, Value32, DecodeEdit;
    RoundTrip32(n);
    assert (U32(n) + rest)[..4] == U32(n);
  }

  /** A crash after the append that makes the manifest too long and before the rewritten one replaces it. */
  lemma CrashBeforeRename(edits: seq<Edit>, e: Edit)
    requires RunOk(edits + [e])
    ensures var r := Recovered(ManifestAfter(edits) + Record(e));
            && (r.0 == After(edits + [e]) <==> MissesNothing(LogAfter(edits) + [e]))
            && r.1 == NextAfterAll(edits + [e], 1)
  {
    hide ManifestAfter, Recovered, After, RecordOk, NextAfterAll, LogAfter, MissesNothing, Record, Records, Ordered,
         SnapshotEdit, Apply;
    var all, log := edits + [e], LogAfter(edits);
    assert all[..|edits|] == edits && all[..|edits| + 1] == all && all[|edits|] == e;
    assert CommitOk(all, |edits|);
    RunFront(all);
    RunReflects(edits);
    RecordsAppend(log, e);
    OneMoreEdit(edits, e, e.nextFile.value);
    OneMoreEdit(log, e, e.nextFile.value);
    RecoveryExact(log + [e]);
  }
}
