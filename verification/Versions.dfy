/** Choosing, merging and committing: what the version set's work is made of. */
module Versions {
  import opened Keys
  import opened Codec
  import opened Lsm
  import opened Merge
  import opened Compaction
  import opened Outputs
  import opened EditCodec

  const MANIFEST_LIMIT: nat := 1024 * 1024

  datatype Options = Options(flushThreshold: nat, l0Trigger: nat, multiplier: nat)

  function FlushThreshold(o: Options): (n: nat)
    ensures n > 0
  {
    if o.flushThreshold > 0 then o.flushThreshold else 1024 * 1024
  }

  function L0Trigger(o: Options): (n: nat)
    ensures n > 0
  {
    if o.l0Trigger > 0 then o.l0Trigger else 4
  }

  // ---------------------------------------------------------------- scoring

  /** Bytes in a level, summed in 64-bit arithmetic. */
  function LevelBytes(files: seq<FileMeta>): nat {
    if files == [] then 0 else (LevelBytes(files[..|files| - 1]) + files[|files| - 1].size) % TWO64
  }

  /** The byte limit of a level, also 64-bit. */
  function Limit(o: Options, level: nat): nat {
    if level == 0 then FlushThreshold(o) % TWO64 else Limit(o, level - 1) * o.multiplier % TWO64
  }

  /** A score kept as a fraction. A zero limit stands for an infinite score, or for none at all over 0. */
  datatype Score = Score(num: nat, den: nat) {
    predicate Full() { num >= den && num > 0 }
    predicate Exceeds(other: Score) { num * other.den > other.num * den }
  }

  function LevelScore(v: Version, o: Options, level: nat): Score
    requires level < MAX_LEVELS
  {
    if level == 0 then Score(|v[0]|, L0Trigger(o)) else Score(LevelBytes(v[level]), Limit(o, level))
  }

  // ----------------------------------------------- the same in plain numbers

  ghost function SizeSum(files: seq<FileMeta>): nat {
    if files == [] then 0 else SizeSum(files[..|files| - 1]) + files[|files| - 1].size
  }

  ghost function Power(b: nat, n: nat): nat {
    if n == 0 then 1 else Power(b, n - 1) * b
  }

  /** What a level holds: files on level 0, bytes modulo 2^64 below. */
  ghost function Amount(v: Version, level: nat): nat
    requires level < MAX_LEVELS
  {
    if level == 0 then |v[0]| else SizeSum(v[level]) % 0x1_0000_0000_0000_0000
  }

  /** What it may hold: the trigger, or the flush threshold times the multiplier to the level, modulo 2^64. */
  ghost function Allowed(o: Options, level: nat): nat {
    if level == 0 then (if o.l0Trigger > 0 then o.l0Trigger else 4)
    else
      var threshold := if o.flushThreshold > 0 then o.flushThreshold else 1048576;
      threshold * Power(o.multiplier, level) % 0x1_0000_0000_0000_0000
  }

  /** Below what it may hold; where that came out as zero, empty. */
  ghost predicate LevelSettled(v: Version, o: Options, level: nat)
    requires level < MAX_LEVELS
  {
    if Allowed(o, level) == 0 then Amount(v, level) == 0 else Amount(v, level) < Allowed(o, level)
  }

  ghost predicate Settled(v: Version, o: Options) {
    forall level :: 0 <= level < MAX_LEVELS - 1 ==> LevelSettled(v, o, level)
  }

  lemma SumWraps(a: nat, b: nat)
    ensures (a % TWO64 + b) % TWO64 == (a + b) % TWO64
  {
  }

  lemma ProductWraps(a: nat, b: nat)
    ensures a % TWO64 * b % TWO64 == a * b % TWO64
  {
    var q, r := a / TWO64, a % TWO64;
    assert a * b == (TWO64 * q + r) * b == TWO64 * (q * b) + r * b;
    MultipleVanishes(q * b, r * b);
  }

  lemma MultipleVanishes(t: nat, u: nat)
    ensures (TWO64 * t + u) % TWO64 == u % TWO64
  {
  }

  lemma {:induction false} BytesAreSum(files: seq<FileMeta>)
    ensures LevelBytes(files) == SizeSum(files) % TWO64
  {
    if files != [] {
      var n := |files| - 1;
      BytesAreSum(files[..n]);
      SumWraps(SizeSum(files[..n]), files[n].size);
    }
  }

  lemma {:induction false} LimitIsPower(o: Options, level: nat)
    ensures Limit(o, level) == FlushThreshold(o) * Power(o.multiplier, level) % TWO64
  {
    hide FlushThreshold;
    if level > 0 {
      LimitIsPower(o, level - 1);
      OneMoreFactor(FlushThreshold(o), Power(o.multiplier, level - 1), o.multiplier);
    }
  }

  lemma OneMoreFactor(t: nat, p: nat, b: nat)
    ensures t * p % TWO64 * b % TWO64 == t * (p * b) % TWO64
  {
    ProductWraps(t * p, b);
    Associate(t, p, b);
  }

  lemma Associate(t: nat, p: nat, b: nat)
    ensures t * p * b == t * (p * b)
  {
  }

  /** The score of a level is what it holds over what it may hold. */
  lemma {:induction false} ScoreIs(v: Version, o: Options, level: nat)
    requires level < MAX_LEVELS
    ensures LevelScore(v, o, level) == Score(Amount(v, level), Allowed(o, level))
    ensures LevelScore(v, o, level).Full() <==> !LevelSettled(v, o, level)
  {
    hide SizeSum, Power, LevelBytes, Limit;
    if level > 0 {
      BytesAreSum(v[level]);
      LimitIsPower(o, level);
    }
  }

  lemma {:induction false} FullNotEmpty(v: Version, o: Options, level: nat)
    requires level < MAX_LEVELS && !LevelSettled(v, o, level)
    ensures v[level] != []
  {
  }

  lemma ExceedsTransitive(a: Score, b: Score, c: Score)
    requires a.Exceeds(b) && !c.Exceeds(b)
    ensures !c.Exceeds(a) && (c.Full() ==> a.Exceeds(c))
  {
    CrossMultiply(a.num, a.den, b.num, b.den, c.num, c.den);
  }

  /** p/q above r/t, and u/w not above r/t: u/w is not above p/q, and is below it if w is not zero. */
  lemma CrossMultiply(p: nat, q: nat, r: nat, t: nat, u: nat, w: nat)
    requires p * t > r * q && u * t <= r * w
    ensures u * q <= p * w && (w > 0 ==> u * q < p * w) && (w == 0 ==> u == 0)
  {
    assert t > 0;
    Grow(u * t, r * w, q);
    Grow(r * q + 1, p * t, w);
    assert u * q * t == u * t * q && r * w * q == r * q * w && p * t * w == p * w * t;
    Cancel(u * q, p * w, t);
  }

  lemma Grow(a: nat, b: nat, c: nat)
    requires a <= b
    ensures a * c <= b * c
  {
  }

  lemma Cancel(a: nat, b: nat, c: nat)
    requires c > 0
    ensures (a * c <= b * c ==> a <= b) && (a * c < b * c ==> a < b)
  {
    if a > b { Grow(b + 1, a, c); }
    if a >= b { Grow(b, a, c); }
  }

  /** `s` has the greatest quotient, and is the first that has it. */
  ghost predicate Greatest(v: Version, o: Options, s: nat)
    requires s < MAX_LEVELS
  {
    forall level :: 0 <= level < MAX_LEVELS - 1 ==> NoGreater(v, o, level, s)
  }

  ghost predicate NoGreater(v: Version, o: Options, level: nat, s: nat)
    requires level < MAX_LEVELS && s < MAX_LEVELS
  {
    && Amount(v, level) * Allowed(o, s) <= Amount(v, s) * Allowed(o, level)
    && (level < s && !LevelSettled(v, o, level) ==>
          Amount(v, level) * Allowed(o, s) < Amount(v, s) * Allowed(o, level))
  }

  lemma {:induction false} BestIsGreatest(v: Version, o: Options, s: nat, level: nat)
    requires s < MAX_LEVELS && level < MAX_LEVELS && LevelScore(v, o, s).Full()
    requires LevelScore(v, o, level).Full() ==> !LevelScore(v, o, level).Exceeds(LevelScore(v, o, s))
    requires LevelScore(v, o, level).Full() && level < s ==> LevelScore(v, o, s).Exceeds(LevelScore(v, o, level))
    ensures NoGreater(v, o, level, s)
  {
    ScoreIs(v, o, s);
    ScoreIs(v, o, level);
    hide Amount, Allowed, LevelScore;
    var a, d, x, y := Amount(v, s), Allowed(o, s), Amount(v, level), Allowed(o, level);
    if !LevelScore(v, o, level).Full() {
      ProductsOrdered(x, y, a, d);
    }
  }

  lemma ProductsOrdered(x: nat, y: nat, a: nat, d: nat)
    requires (x == 0 || x < y) && d <= a
    ensures x * d <= a * y
  {
    if x > 0 {
      assert x * d <= y * d <= y * a;
    }
  }

  method LevelSize(files: seq<FileMeta>) returns (size: nat)
    ensures size == SizeSum(files) % 0x1_0000_0000_0000_0000 && size == LevelBytes(files)
  {
    size := 0;
    var j := 0;
    while j < |files|
      invariant j <= |files|
      invariant size == LevelBytes(files[..j])
    {
      assert files[..j + 1][..j] == files[..j];
      size := (size + files[j].size) % TWO64;
      j := j + 1;
    }
    assert files[..j] == files;
    BytesAreSum(files);
  }

  /** Picks the level to compact: one that holds at least what it may, with the greatest quotient of the two, the
      shallowest among equals. */
  method PickSource(v: Version, o: Options) returns (source: Option<nat>)
    ensures source.None? <==> Settled(v, o)
    ensures source.Some? ==>
              source.value < MAX_LEVELS - 1 && !LevelSettled(v, o, source.value) && Greatest(v, o, source.value)
  {
    hide LevelBytes, SizeSum, Power, LevelSettled, NoGreater, LevelScore, Score.Full, Score.Exceeds;
    source := None;
    var best := LevelScore(v, o, 0);
    NotAboveItself(v, o, 0, best);
    if best.Full() {
      source := Some(0);
    }
    var limit := Limit(o, 0) * o.multiplier % TWO64;
    var i := 1;
    while i < MAX_LEVELS - 1
      invariant 1 <= i <= MAX_LEVELS - 1
      invariant limit == Limit(o, i)
      invariant source.None? ==> forall level :: 0 <= level < i ==> !LevelScore(v, o, level).Full()
      invariant source.Some? ==> source.value < i && best == LevelScore(v, o, source.value) && best.Full()
      invariant source.Some? ==> forall level :: 0 <= level < i && LevelScore(v, o, level).Full() ==>
                                   Yields(v, o, level, best, source.value)
    {
      var size := LevelSize(v[i]);
      var score := Score(size, limit);
      ScoreAt(v, o, i);
      if score.Full() && (source.None? || score.Exceeds(best)) {
        forall level | 0 <= level < i && LevelScore(v, o, level).Full() ensures Yields(v, o, level, score, i) {
          if source.Some? { YieldsOn(v, o, level, best, source.value, score, i); }
        }
        best := score;
        source := Some(i);
        NotAboveItself(v, o, i, score);
      } else if source.Some? && score.Full() {
        NotAbove(v, o, i, best, source.value);
      }
      limit := limit * o.multiplier % TWO64;
      i := i + 1;
    }
    forall level | 0 <= level < MAX_LEVELS - 1
      ensures LevelScore(v, o, level).Full() <==> !LevelSettled(v, o, level)
      ensures source.Some? ==> NoGreater(v, o, level, source.value)
    {
      ScoreIs(v, o, level);
      if source.Some? { YieldMeans(v, o, level, source.value); }
    }
    assert source.Some? ==> !LevelSettled(v, o, source.value);
  }

  /** Full level `level` does not exceed score `best`, which belongs to level `s`, and is below it if it comes first. */
  ghost predicate Yields(v: Version, o: Options, level: nat, best: Score, s: nat)
    requires level < MAX_LEVELS
  {
    !LevelScore(v, o, level).Exceeds(best) && (level < s ==> best.Exceeds(LevelScore(v, o, level)))
  }

  lemma {:induction false} ScoreAt(v: Version, o: Options, i: nat)
    requires 0 < i < MAX_LEVELS
    ensures LevelScore(v, o, i) == Score(LevelBytes(v[i]), Limit(o, i))
  {
  }

  lemma {:induction false} YieldsOn(v: Version, o: Options, level: nat, best: Score, s: nat, score: Score, i: nat)
    requires level < i < MAX_LEVELS && LevelScore(v, o, level).Full() && Yields(v, o, level, best, s)
    requires score.Exceeds(best)
    ensures Yields(v, o, level, score, i)
  {
    hide LevelScore, Score.Exceeds;
    ExceedsTransitive(score, best, LevelScore(v, o, level));
  }

  lemma {:induction false} NotAboveItself(v: Version, o: Options, i: nat, score: Score)
    requires i < MAX_LEVELS && score == LevelScore(v, o, i)
    ensures Yields(v, o, i, score, i)
  {
    hide LevelScore;
  }

  lemma {:induction false} NotAbove(v: Version, o: Options, i: nat, best: Score, s: nat)
    requires s < i < MAX_LEVELS && !LevelScore(v, o, i).Exceeds(best)
    ensures Yields(v, o, i, best, s)
  {
    hide LevelScore;
  }

  lemma {:induction false} YieldMeans(v: Version, o: Options, level: nat, s: nat)
    requires level < MAX_LEVELS && s < MAX_LEVELS && LevelScore(v, o, s).Full()
    requires LevelScore(v, o, level).Full() ==> Yields(v, o, level, LevelScore(v, o, s), s)
    ensures NoGreater(v, o, level, s)
  {
    hide LevelScore, Score.Full, Score.Exceeds, NoGreater;
    BestIsGreatest(v, o, s, level);
  }

  /** The key range of the files to merge, starting from the sentinels "\xFF" and "". */
  method KeyBounds(src: seq<FileMeta>) returns (lo: Key, hi: Key)
    ensures Covers(lo, hi, src)
    ensures lo == [255] || exists f :: f in src && f.minKey == lo
    ensures hi == [] || exists f :: f in src && f.maxKey == hi
  {
    KeyOrder();
    lo, hi := [255], [];
    var i := 0;
    while i < |src|
      invariant i <= |src|
      invariant forall j :: 0 <= j < i ==> AtMost(lo, src[j].minKey) && AtMost(src[j].maxKey, hi)
      invariant lo == [255] || exists f :: f in src && f.minKey == lo
      invariant hi == [] || exists f :: f in src && f.maxKey == hi
    {
      if Below(src[i].minKey, lo) { lo := src[i].minKey; }
      if Below(hi, src[i].maxKey) { hi := src[i].maxKey; }
      i := i + 1;
    }
  }

  // ------------------------------------------------------- a level rewritten

  /** The files of one level after an edit: survivors, then additions, then sorted. */
  method EditLevel(edit: Edit, level: nat, files: seq<FileMeta>) returns (r: seq<FileMeta>)
    ensures r == ApplyLevel(edit, level, files)
  {
    r := [];
    var i := 0;
    while i < |files|
      invariant i <= |files|
      invariant r == Kept(edit, level, files[..i])
    {
      assert files[..i + 1][..i] == files[..i];
      if !Deletes(edit, level, files[i].number) {
        r := r + [files[i]];
      }
      i := i + 1;
    }
    assert files[..i] == files;
    ghost var kept := r;
    i := 0;
    while i < |edit.added|
      invariant i <= |edit.added|
      invariant r == kept + AddedAt(edit.added[..i], level)
    {
      assert edit.added[..i + 1][..i] == edit.added[..i];
      if edit.added[i].0 == level {
        r := r + [edit.added[i].1];
      }
      i := i + 1;
    }
    assert edit.added[..i] == edit.added;
    r := Sort(level, r);
  }

  method SelectTargets(files: seq<FileMeta>, lo: Key, hi: Key) returns (tgt: seq<FileMeta>)
    ensures tgt == Overlapping(files, lo, hi)
  {
    tgt := [];
    var i := 0;
    while i < |files|
      invariant i <= |files|
      invariant tgt == Overlapping(files[..i], lo, hi)
    {
      assert files[..i + 1][..i] == files[..i];
      if Overlaps(files[i], lo, hi) {
        tgt := tgt + [files[i]];
      }
      i := i + 1;
    }
    assert files[..i] == files;
  }

  // ----------------------------------------------------------------- frames

  ghost predicate Extends(t1: Tables, t2: Tables) {
    forall n :: n in t1 ==> n in t2 && t2[n] == t1[n]
  }

  lemma {:induction false} WellFormedFrame(v: Version, t1: Tables, t2: Tables)
    requires WellFormed(v, t1) && Extends(t1, t2)
    ensures WellFormed(v, t2)
  {
    forall level | 0 <= level < MAX_LEVELS ensures LevelOk(level, v[level]) && TablesOk(v[level], t2) {
      assert TablesOk(v[level], t1);
    }
  }

  lemma {:induction false} LevelsGetFrame(levels: seq<seq<FileMeta>>, t1: Tables, t2: Tables, k: Key)
    requires Extends(t1, t2)
    requires forall i :: 0 <= i < |levels| ==> TablesOk(levels[i], t1)
    ensures LevelsGet(levels, t1, k) == LevelsGet(levels, t2, k)
  {
    if levels != [] {
      assert TablesOk(levels[0], t1);
      LevelGetFrame(levels[0], t1, t2, k);
      LevelsGetFrame(levels[1..], t1, t2, k);
    }
  }

  lemma {:induction false} LevelsOfNothing(levels: seq<seq<FileMeta>>, tables: Tables, k: Key)
    requires forall i :: 0 <= i < |levels| ==> levels[i] == []
    ensures LevelsGet(levels, tables, k).None?
  {
    if levels != [] {
      LevelsOfNothing(levels[1..], tables, k);
    }
  }

  lemma {:induction false} VersionGetFrame(v: Version, t1: Tables, t2: Tables, k: Key)
    requires WellFormed(v, t1) && Extends(t1, t2)
    ensures VersionGet(v, t1, k) == VersionGet(v, t2, k)
  {
    LevelsGetFrame(v, t1, t2, k);
  }

  lemma {:induction false} LevelNumbers(v: Version, tables: Tables, level: nat)
    requires WellFormed(v, tables) && level < MAX_LEVELS
    ensures forall f :: f in v[level] ==> f.number in tables
  {
    assert TablesOk(v[level], tables);
  }

  // ------------------------------------------------------- merging into files

  lemma {:induction false} InputsOk(snap: Version, tables: Tables, source: nat, lo: Key, hi: Key)
    requires WellFormed(snap, tables) && source < MAX_LEVELS - 1
    ensures var src, tgt := SourceFiles(snap, source), Overlapping(snap[source + 1], lo, hi);
            TablesOk(src, tables) && TablesOk(tgt, tables) && LevelOk(source, src) && Ascending(tgt)
  {
    assert LevelOk(source, snap[source]) && TablesOk(snap[source], tables);
    assert LevelOk(source + 1, snap[source + 1]) && TablesOk(snap[source + 1], tables);
    OverlappingAscending(snap[source + 1], lo, hi);
  }

  lemma {:induction false} OverlappingAscending(files: seq<FileMeta>, lo: Key, hi: Key)
    requires Ascending(files)
    ensures Ascending(Overlapping(files, lo, hi))
  {
    if files != [] {
      var n := |files| - 1;
      OverlappingAscending(files[..n], lo, hi);
      forall f | f in Overlapping(files[..n], lo, hi) ensures Below(f.maxKey, files[n].minKey) {
        assert f in files[..n];
      }
    }
  }

  ghost predicate Present(files: seq<FileMeta>, tables: Tables) {
    forall f :: f in files ==> f.number in tables
  }

  lemma LastMayBeShort(outs: seq<FileMeta>, tables: Tables, threshold: nat, final: bool)
    requires Chunked(outs, tables, threshold, false)
    ensures Chunked(outs, tables, threshold, final)
  {
    hide ChunkBytes;
    forall i | 0 <= i < |outs| ensures IsChunk(outs[i], tables, threshold, final && i == |outs| - 1) {
      assert IsChunk(outs[i], tables, threshold, false);
    }
  }

  /** Writes a chunk as a new table; an empty chunk writes nothing. */
  method FlushChunk(outs: seq<FileMeta>, tables: Tables, next: nat, chunk: seq<Entry>, threshold: nat, final: bool)
    returns (outs': seq<FileMeta>, tables': Tables, next': nat)
    requires NumbersUpTo(tables, next) && Present(outs, tables) && Chunked(outs, tables, threshold, false)
    requires chunk != [] ==> CutAt(chunk, threshold, final)
    ensures NumbersUpTo(tables', next') && next' >= next && Extends(tables, tables')
    ensures Present(outs', tables') && Chunked(outs', tables', threshold, final)
    ensures Concat(outs', tables') == Concat(outs, tables) + chunk
  {
    hide Chunked, Concat, CutAt, ChunkBytes;
    if chunk == [] {
      assert Concat(outs, tables) + chunk == Concat(outs, tables);
      LastMayBeShort(outs, tables, threshold, final);
      return outs, tables, next;
    }
    next' := next + 1;
    tables' := tables[next' := chunk];
    var f := FileMeta(next', ChunkBytes(chunk) + 24, chunk[0].key, chunk[|chunk| - 1].key);
    outs' := outs + [f];
    ChunkWritten(outs, tables, next', chunk, threshold, final);
  }

  lemma ChunkWritten(outs: seq<FileMeta>, tables: Tables, n: nat, chunk: seq<Entry>, threshold: nat, final: bool)
    requires Present(outs, tables) && Chunked(outs, tables, threshold, false)
    requires n !in tables && CutAt(chunk, threshold, final)
    ensures var f := FileMeta(n, ChunkBytes(chunk) + 24, chunk[0].key, chunk[|chunk| - 1].key);
            && Present(outs + [f], tables[n := chunk])
            && Chunked(outs + [f], tables[n := chunk], threshold, final)
            && Concat(outs + [f], tables[n := chunk]) == Concat(outs, tables) + chunk
  {
    assert chunk != [];
    hide ChunkBytes, CutAt;
    var f := FileMeta(n, ChunkBytes(chunk) + 24, chunk[0].key, chunk[|chunk| - 1].key);
    var tables' := tables[n := chunk];
    var outs' := outs + [f];
    assert outs'[..|outs|] == outs;
    ConcatFrame(outs, tables, tables');
    forall i | 0 <= i < |outs'| ensures IsChunk(outs'[i], tables', threshold, final && i == |outs|) {
      if i < |outs| {
        assert outs'[i] == outs[i] && outs[i] in outs;
      }
    }
  }

  /** What the merge loop maintains about the stream emitted so far and the files it went to. */
  ghost predicate Streamed(out: seq<Entry>, outs: seq<FileMeta>, tables: Tables, chunk: seq<Entry>, threshold: nat) {
    && Present(outs, tables) && Chunked(outs, tables, threshold, false)
    && out == Concat(outs, tables) + chunk
    && ChunkBytes(chunk) < threshold
  }

  /** Adds an entry to the open chunk and cuts the chunk when it is full. */
  method Emit(e: Entry, outs: seq<FileMeta>, tables: Tables, next: nat, chunk: seq<Entry>, threshold: nat,
              ghost out: seq<Entry>)
    returns (outs': seq<FileMeta>, tables': Tables, next': nat, chunk': seq<Entry>)
    requires NumbersUpTo(tables, next) && Streamed(out, outs, tables, chunk, threshold)
    ensures NumbersUpTo(tables', next') && next' >= next && Extends(tables, tables')
    ensures Streamed(out + [e], outs', tables', chunk', threshold)
  {
    outs', tables', next' := outs, tables, next;
    chunk' := chunk + [e];
    assert chunk'[..|chunk|] == chunk;
    assert out + [e] == Concat(outs, tables) + chunk';
    if ChunkBytes(chunk') >= threshold {
      outs', tables', next' := FlushChunk(outs, tables, next, chunk', threshold, false);
      chunk' := [];
      assert Concat(outs', tables') + [] == Concat(outs', tables');
    }
  }

  /** The merge loop: pop the top, skip repeats and bottom-level tombstones, emit the rest. */
  method MergeRuns(runs: seq<Run>, tables: Tables, next: nat, bottom: bool, threshold: nat)
    returns (outs: seq<FileMeta>, tables': Tables, next': nat)
    requires RunsOk(runs) && NumbersUpTo(tables, next) && threshold > 0
    ensures NumbersUpTo(tables', next') && next' >= next && Extends(tables, tables')
    ensures Present(outs, tables') && Chunked(outs, tables', threshold, true)
    ensures Sorted(Concat(outs, tables')) && |Concat(outs, tables')| <= Total(runs)
    ensures forall k :: Find(Concat(outs, tables'), k) == Keep(bottom, RunsGet(runs, k))
  {
    hide Remaining, Total, RunsOk, Exhausted, IsTop, Find, RunsGet, Keep, Chunked;
    outs, tables', next' := [], tables, next;
    var pos: seq<nat> := seq(|runs|, _ => 0);
    var last: Option<Key> := None;
    var chunk: seq<Entry> := [];
    ghost var out: seq<Entry> := [];
    RemainingStart(runs, pos);
    NothingStreamed(tables, threshold);
    var w: nat := Top(runs, pos);
    while w < |runs|
      invariant MergedUpTo(runs, pos, bottom, last, out)
      invariant w <= |runs|
      invariant if w == |runs| then Exhausted(runs, pos) else IsTop(runs, pos, w)
      invariant |out| <= Total(runs) - Remaining(runs, pos)
      invariant NumbersUpTo(tables', next') && next' >= next && Extends(tables, tables')
      invariant Streamed(out, outs, tables', chunk, threshold)
      decreases Remaining(runs, pos)
    {
      hide MergedUpTo, Streamed, Split, Extends, NumbersUpTo;
      TopInBounds(runs, pos, bottom, last, out, w);
      var e := runs[w].entries[pos[w]];
      MergeTurn(runs, pos, bottom, last, out, w);
      RemainingAdvance(runs, pos, w);
      var skip := last == Some(e.key) || (bottom && IsTombstone(e.ptr));
      pos, last := pos[w := pos[w] + 1], Some(e.key);
      if !skip {
        ghost var before := tables';
        outs, tables', next', chunk := Emit(e, outs, tables', next', chunk, threshold, out);
        ExtendsTransitive(tables, before, tables');
        out := out + [e];
      }
      InvariantBounds(runs, pos, bottom, last, out);
      w := Top(runs, pos);
    }
    forall k ensures Find(out, k) == Keep(bottom, RunsGet(runs, k)) {
      MergeDone(runs, pos, bottom, last, out, k);
    }
    RemainingNonNegative(runs, pos);
    if chunk != [] {
      ChunkPrefix(chunk);
    }
    outs, tables', next' := FlushChunk(outs, tables', next', chunk, threshold, true);
  }

  lemma ExtendsTransitive(t1: Tables, t2: Tables, t3: Tables)
    requires Extends(t1, t2) && Extends(t2, t3)
    ensures Extends(t1, t3)
  {
  }

  lemma TopInBounds(runs: seq<Run>, pos: seq<nat>, bottom: bool, last: Option<Key>, out: seq<Entry>, w: nat)
    requires MergedUpTo(runs, pos, bottom, last, out) && IsTop(runs, pos, w)
    ensures |pos| == |runs| && pos[w] < |runs[w].entries|
  {
  }

  /** The positions stay in bounds, so the entries left can be counted. */
  lemma InvariantBounds(runs: seq<Run>, pos: seq<nat>, bottom: bool, last: Option<Key>, out: seq<Entry>)
    requires MergedUpTo(runs, pos, bottom, last, out)
    ensures InBounds(runs, pos) && Remaining(runs, pos) >= 0
  {
    RemainingNonNegative(runs, pos);
  }

  lemma NothingStreamed(tables: Tables, threshold: nat)
    requires threshold > 0
    ensures Streamed([], [], tables, [], threshold)
  {
  }

  lemma ChunkPrefix(chunk: seq<Entry>)
    requires chunk != []
    ensures ChunkBytes(chunk[..|chunk| - 1]) < ChunkBytes(chunk)
  {
  }

  /** What the merge of a plan's inputs leaves in its output files. */
  ghost predicate MergeResult(p: Plan, t1: Tables, t2: Tables, threshold: nat) {
    && TablesOk(p.src, t1) && TablesOk(p.tgt, t1)
    && Present(p.outs, t2) && Chunked(p.outs, t2, threshold, true) && Sorted(Concat(p.outs, t2))
    && var runs := ToRuns(p.source, p.src, t1) + ToRuns(p.source + 1, p.tgt, t1);
    && |Concat(p.outs, t2)| <= Total(runs)
    && forall k :: Find(Concat(p.outs, t2), k) == Keep(p.source + 1 == MAX_LEVELS - 1, RunsGet(runs, k))
  }

  /** A finished merge is a good plan for the snapshot it read. */
  lemma {:induction false} PlanFromMerge(p: Plan, snap: Version, t1: Tables, t2: Tables, threshold: nat)
    requires WellFormed(snap, t1) && Extends(t1, t2)
    requires p.source < MAX_LEVELS - 1
    requires p.src == SourceFiles(snap, p.source) && p.src != [] && Covers(p.lo, p.hi, p.src)
    requires p.tgt == Overlapping(snap[p.source + 1], p.lo, p.hi)
    requires MergeResult(p, t1, t2, threshold)
    ensures PlanOk(p, snap, t2) && Shrinks(p, t2)
  {
    ChunksOk(p.outs, t2, threshold, true);
    MergeShrinks(p, t1, t2);
    MergeMeans(p, t1, t2, threshold);
  }

  lemma {:induction false} MergeMeans(p: Plan, t1: Tables, t2: Tables, threshold: nat)
    requires Extends(t1, t2) && TablesOk(p.outs, t2) && MergeResult(p, t1, t2, threshold)
    ensures MergesTo(p, t2)
  {
    forall k
      ensures LevelGet(p.outs, t2, k)
           == Keep(p.source + 1 == MAX_LEVELS - 1, OrElse(LevelGet(p.src, t2, k), LevelGet(p.tgt, t2, k)))
    {
      hide Chunked, Sorted, Total, RunsGet, Find, LevelGet, Keep;
      ChunksGet(p.outs, t2, k);
      InputsGet(p.source, p.src, p.tgt, t1, t2, k);
    }
  }

  lemma InputsGet(source: nat, src: seq<FileMeta>, tgt: seq<FileMeta>, t1: Tables, t2: Tables, k: Key)
    requires TablesOk(src, t1) && TablesOk(tgt, t1) && Extends(t1, t2)
    ensures RunsGet(ToRuns(source, src, t1) + ToRuns(source + 1, tgt, t1), k)
         == OrElse(LevelGet(src, t2, k), LevelGet(tgt, t2, k))
  {
    RunsGetAppend(ToRuns(source, src, t1), ToRuns(source + 1, tgt, t1), k);
    RunsGetLevel(source, src, t1, k);
    RunsGetLevel(source + 1, tgt, t1, k);
    LevelGetFrame(src, t1, t2, k);
    LevelGetFrame(tgt, t1, t2, k);
  }

  lemma {:induction false} MergeShrinks(p: Plan, t1: Tables, t2: Tables)
    requires Extends(t1, t2) && TablesOk(p.src, t1) && TablesOk(p.tgt, t1) && Present(p.outs, t2)
    requires |Concat(p.outs, t2)| <= Total(ToRuns(p.source, p.src, t1) + ToRuns(p.source + 1, p.tgt, t1))
    ensures Shrinks(p, t2)
  {
    TotalAppend(ToRuns(p.source, p.src, t1), ToRuns(p.source + 1, p.tgt, t1));
    CountRuns(p.source, p.src, t1);
    CountRuns(p.source + 1, p.tgt, t1);
    CountFrame(p.src, t1, t2);
    CountFrame(p.tgt, t1, t2);
    CountConcat(p.outs, t2);
  }

  /** Committing on the snapshot itself: the invariants hold, lookups agree, and the weight falls. */
  lemma {:induction false} CommitSettles(p: Plan, v: Version, t1: Tables, t2: Tables)
    requires WellFormed(v, t1) && Extends(t1, t2) && PlanOk(p, v, t2) && Shrinks(p, t2)
    ensures WellFormed(Apply(PlanEdit(p), v), t2)
    ensures Weight(Apply(PlanEdit(p), v), t2) < Weight(v, t1)
    ensures forall k :: Live(VersionGet(Apply(PlanEdit(p), v), t2, k)) == Live(VersionGet(v, t1, k))
  {
    hide PlanOk, Weight, Shrinks, Apply, VersionGet;
    WellFormedFrame(v, t1, t2);
    assert FlushedSince(v, v, []) by { assert [] + v[0] == v[0]; }
    CompactionInstalls(p, v, v, t2, []);
    WeightFalls(p, v, t2);
    WeightFrame(v, t1, t2);
    forall k ensures Live(VersionGet(Apply(PlanEdit(p), v), t2, k)) == Live(VersionGet(v, t1, k)) {
      CompactionPreserves(p, v, v, t2, [], k);
      VersionGetFrame(v, t1, t2, k);
    }
  }

  /** A plan stays good while other tables are added under new numbers. */
  lemma {:induction false} PlanFrame(p: Plan, snap: Version, t1: Tables, t2: Tables)
    requires WellFormed(snap, t1) && PlanOk(p, snap, t1) && Extends(t1, t2)
    ensures PlanOk(p, snap, t2)
  {
    hide LevelGet, Ascending;
    assert TablesOk(snap[p.source], t1) && TablesOk(snap[p.source + 1], t1);
    forall f | f in p.src ensures f in snap[p.source] {
    }
    forall k ensures LevelGet(p.outs, t2, k)
                  == Keep(p.source + 1 == MAX_LEVELS - 1, OrElse(LevelGet(p.src, t2, k), LevelGet(p.tgt, t2, k))) {
      LevelGetFrame(p.outs, t1, t2, k);
      LevelGetFrame(p.src, t1, t2, k);
      LevelGetFrame(p.tgt, t1, t2, k);
    }
  }

  /** Flushes on flushes are flushes. */
  lemma {:induction false} FlushesCompose(a: Version, b: Version, c: Version, n1: seq<FileMeta>, n2: seq<FileMeta>)
    requires FlushedSince(a, b, n1) && FlushedSince(b, c, n2)
    ensures FlushedSince(a, c, n2 + n1)
  {
    assert n2 + (n1 + a[0]) == n2 + n1 + a[0];
  }

  /** Committing on a version that flushes have moved on: the invariants hold and no lookup changes. */
  lemma {:induction false} CommitAfterFlushes(p: Plan, snap: Version, v: Version, newer: seq<FileMeta>, tables: Tables)
    requires WellFormed(snap, tables) && WellFormed(v, tables) && PlanOk(p, snap, tables)
             && FlushedSince(snap, v, newer)
    ensures WellFormed(Apply(PlanEdit(p), v), tables)
    ensures forall k :: Live(VersionGet(Apply(PlanEdit(p), v), tables, k)) == Live(VersionGet(v, tables, k))
  {
    hide PlanOk, Apply, VersionGet, WellFormed, FlushedSince;
    CompactionInstalls(p, snap, v, tables, newer);
    forall k ensures Live(VersionGet(Apply(PlanEdit(p), v), tables, k)) == Live(VersionGet(v, tables, k)) {
      CompactionPreserves(p, snap, v, tables, newer, k);
    }
  }

  /** What a key shows once some memtables have been flushed over a version, the last one winning. */
  ghost function FlushedOver(flushes: seq<seq<Entry>>, below: Option<Pointer>, k: Key): Option<Pointer> {
    if flushes == [] then below
    else OrElse(Find(flushes[|flushes| - 1], k), FlushedOver(flushes[..|flushes| - 1], below, k))
  }

  lemma {:induction false} WeightFrame(v: Version, t1: Tables, t2: Tables)
    requires WellFormed(v, t1) && Extends(t1, t2)
    ensures Weight(v, t1) == Weight(v, t2)
  {
    forall level | 0 <= level < MAX_LEVELS ensures EntryCount(v[level], t1) == EntryCount(v[level], t2) {
      LevelNumbers(v, t1, level);
      CountFrame(v[level], t1, t2);
    }
  }

  // --------------------------------------------------------------- manifest

  /** A manifest record: length, then the encoded edit. */
  function Record(e: Edit): Bytes {
    var body := EncodeEdit(e);
    U32(|body|) + body
  }

  /** The edit that describes a whole version. */
  function SnapshotEdit(v: Version, next: nat): Edit {
    Edit(Some(next), [], SnapshotFiles(v, 0))
  }

  function SnapshotFiles(v: Version, level: nat): seq<(nat, FileMeta)>
    decreases MAX_LEVELS - level
  {
    if level >= MAX_LEVELS then [] else AddedOf(level, v[level]) + SnapshotFiles(v, level + 1)
  }

  /** The record a manifest rewrite consists of. */
  method SnapshotRecord(v: Version, next: nat) returns (r: Bytes)
    ensures r == Record(SnapshotEdit(v, next))
  {
    hide EncodeEdit, U32;
    var added: seq<(nat, FileMeta)> := [];
    var level := 0;
    while level < MAX_LEVELS
      invariant level <= MAX_LEVELS
      invariant added + SnapshotFiles(v, level) == SnapshotFiles(v, 0)
    {
      added := added + AddedOf(level, v[level]);
      level := level + 1;
    }
    assert added == SnapshotFiles(v, 0);
    var encoded := EncodeTo(Edit(Some(next), [], added));
    r := U32(|encoded|) + encoded;
  }

  method RewriteLevels(edit: Edit, v: Version) returns (w: Version)
    ensures w == Apply(edit, v)
  {
    hide ApplyLevel;
    var levels: seq<seq<FileMeta>> := [];
    var level := 0;
    while level < MAX_LEVELS
      invariant level == |levels| <= MAX_LEVELS
      invariant forall l :: 0 <= l < level ==> levels[l] == ApplyLevel(edit, l, v[l])
    {
      var files := EditLevel(edit, level, v[level]);
      levels := levels + [files];
      level := level + 1;
    }
    w := levels;
  }

  /** The manifest after `e` is logged and `v` installed: appended, or rewritten past one megabyte. */
  function LoggedManifest(manifest: Bytes, e: Edit, v: Version, next: nat): Bytes {
    var appended := manifest + Record(e);
    if |appended| > MANIFEST_LIMIT then Record(SnapshotEdit(v, next)) else appended
  }

  ghost predicate NumbersUpTo(tables: Tables, next: nat) {
    forall n :: n in tables ==> n <= next
  }

  function AddedNumbers(edit: Edit): set<nat> {
    set a | a in edit.added :: a.1.number
  }

  function NumbersOf(files: seq<FileMeta>): set<nat> {
    set f | f in files :: f.number
  }

  /** The merge of a level into the next as a plan: all of level 0, or the first file of another level, with the
      files of the next level that its key range meets. */
  method MergePlan(snap: Version, source: nat, tables: Tables, next: nat, threshold: nat)
    returns (p: Plan, tables': Tables, next': nat)
    requires WellFormed(snap, tables) && NumbersUpTo(tables, next)
    requires source < MAX_LEVELS - 1 && snap[source] != [] && threshold > 0
    ensures NumbersUpTo(tables', next') && next' >= next && Extends(tables, tables')
    ensures p.source == source && PlanOk(p, snap, tables')
    ensures Shrinks(p, tables') && Chunked(p.outs, tables', threshold, true)
    ensures forall f :: f in p.outs ==> f.number <= next'
  {
    var target := source + 1;
    var src := SourceFiles(snap, source);
    var lo, hi := KeyBounds(src);
    var tgt := SelectTargets(snap[target], lo, hi);
    InputsOk(snap, tables, source, lo, hi);
    var runs := ToRuns(source, src, tables) + ToRuns(target, tgt, tables);
    InputRunsOk(source, src, tgt, tables);
    var outs;
    outs, tables', next' := MergeRuns(runs, tables, next, target == MAX_LEVELS - 1, threshold);
    p := Plan(source, lo, hi, src, tgt, outs);
    PlanFromMerge(p, snap, tables, tables', threshold);
    OutputNumbers(outs, tables', threshold, next');
  }

  lemma {:induction false} OutputNumbers(outs: seq<FileMeta>, tables: Tables, threshold: nat, next: nat)
    requires Chunked(outs, tables, threshold, true) && NumbersUpTo(tables, next)
    ensures forall f :: f in outs ==> f.number <= next
  {
    hide ChunkBytes, CutAt;
    forall f | f in outs ensures f.number <= next {
      var i :| 0 <= i < |outs| && outs[i] == f;
      assert IsChunk(outs[i], tables, threshold, i == |outs| - 1);
    }
  }

  lemma {:induction false} NothingFlushed(v: Version, tables: Tables)
    ensures FlushedSince(v, v, []) && Extends(tables, tables)
    ensures forall k :: VersionGet(v, tables, k) == OrElse(Find([], k), VersionGet(v, tables, k))
  {
    assert [] + v[0] == v[0];
  }

  /** Installing a new table of entries on level 0. */
  lemma {:induction false} FlushedTable(v: Version, before: Tables, n: nat, entries: seq<Entry>, f: FileMeta)
    requires WellFormed(v, before) && n !in before && NumbersUpTo(before, n) && entries != [] && Sorted(entries)
    requires f.number == n && f.minKey == entries[0].key && f.maxKey == entries[|entries| - 1].key
    ensures var tables, w := before[n := entries], Apply(FlushEdit(f), v);
            && WellFormed(w, tables) && NumbersUpTo(tables, n) && Extends(before, tables)
            && w == v[0 := [f] + v[0]] && FlushedSince(v, w, [f]) && AddedNumbers(FlushEdit(f)) == {n}
            && forall k :: VersionGet(w, tables, k) == OrElse(Find(entries, k), VersionGet(v, before, k))
  {
    hide VersionGet, Find, WellFormed, Apply;
    var tables := before[n := entries];
    WellFormedFrame(v, before, tables);
    assert IsNewest(f, v) by { LevelNumbers(v, before, 0); }
    FlushInstalls(v, tables, f);
    forall k ensures VersionGet(Apply(FlushEdit(f), v), tables, k)
                     == OrElse(Find(entries, k), VersionGet(v, before, k)) {
      FlushMeaning(v, tables, f, k);
      VersionGetFrame(v, before, tables, k);
    }
  }

  lemma {:induction false} Unmoved(v: Version, t1: Tables, t2: Tables)
    requires WellFormed(v, t1) && Extends(t1, t2)
    ensures WellFormed(v, t2) && FlushedSince(v, v, [])
    ensures forall k :: VersionGet(v, t2, k) == VersionGet(v, t1, k)
  {
    hide VersionGet, WellFormed;
    WellFormedFrame(v, t1, t2);
    assert [] + v[0] == v[0];
    forall k ensures VersionGet(v, t2, k) == VersionGet(v, t1, k) {
      VersionGetFrame(v, t1, t2, k);
    }
  }

  lemma NoFlushesYet(flushes: seq<seq<Entry>>)
    ensures forall below, k :: FlushedOver(flushes[..0], below, k) == below
  {
  }

  lemma OneMoreFlush(flushes: seq<seq<Entry>>, i: nat)
    requires i < |flushes|
    ensures forall below, k ::
              FlushedOver(flushes[..i + 1], below, k)
              == OrElse(Find(flushes[i], k), FlushedOver(flushes[..i], below, k))
  {
    hide Find;
    assert flushes[..i + 1][..i] == flushes[..i];
  }
}
