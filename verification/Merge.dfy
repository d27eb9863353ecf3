/** The k-way merge of compaction: newest version of each key, in key order. */
module Merge {
  import opened Keys
  import opened Lsm

  /** One input table, with the level and file number that rank it. */
  datatype Run = Run(level: nat, number: nat, entries: seq<Entry>)

  /** Between two runs holding a key, the shallower level wins, then the larger number. */
  predicate Outranks(a: Run, b: Run) {
    a.level < b.level || (a.level == b.level && a.number > b.number)
  }

  function RunsGet(runs: seq<Run>, k: Key): Option<Pointer> {
    if runs == [] then None else OrElse(Find(runs[0].entries, k), RunsGet(runs[1..], k))
  }

  ghost predicate RunsOk(runs: seq<Run>) {
    && (forall i :: 0 <= i < |runs| ==> Sorted(runs[i].entries))
    && (forall i, j, k :: 0 <= i < j < |runs| && Find(runs[i].entries, k).Some? && Find(runs[j].entries, k).Some?
          ==> Outranks(runs[i], runs[j]))
  }

  /** Tombstones are dropped only when merging into the last level. */
  function Keep(bottom: bool, found: Option<Pointer>): Option<Pointer> {
    if bottom then Live(found) else found
  }

  function Total(runs: seq<Run>): nat {
    if runs == [] then 0 else Total(runs[..|runs| - 1]) + |runs[|runs| - 1].entries|
  }

  function Remaining(runs: seq<Run>, pos: seq<nat>): int
    requires |pos| == |runs|
  {
    if runs == [] then 0
    else Remaining(runs[..|runs| - 1], pos[..|runs| - 1]) + |runs[|runs| - 1].entries| - pos[|runs| - 1]
  }

  lemma {:induction false} RemainingAdvance(runs: seq<Run>, pos: seq<nat>, w: nat)
    requires |pos| == |runs| && w < |runs|
    ensures Remaining(runs, pos[w := pos[w] + 1]) == Remaining(runs, pos) - 1
  {
    var n := |runs| - 1;
    var next := pos[w := pos[w] + 1];
    if w == n {
      assert next[..n] == pos[..n];
    } else {
      assert next[..n] == pos[..n][w := pos[w] + 1];
      RemainingAdvance(runs[..n], pos[..n], w);
    }
  }

  lemma {:induction false} RemainingStart(runs: seq<Run>, pos: seq<nat>)
    requires |pos| == |runs| && forall i :: 0 <= i < |pos| ==> pos[i] == 0
    ensures Remaining(runs, pos) == Total(runs)
  {
    if runs != [] {
      RemainingStart(runs[..|runs| - 1], pos[..|runs| - 1]);
    }
  }

  lemma {:induction false} RemainingNonNegative(runs: seq<Run>, pos: seq<nat>)
    requires InBounds(runs, pos)
    ensures Remaining(runs, pos) >= 0
    ensures Remaining(runs, pos) == 0 ==> forall i :: 0 <= i < |runs| ==> pos[i] == |runs[i].entries|
  {
    if runs != [] {
      RemainingNonNegative(runs[..|runs| - 1], pos[..|runs| - 1]);
    }
  }

  ghost predicate InBounds(runs: seq<Run>, pos: seq<nat>) {
    |pos| == |runs| && forall i :: 0 <= i < |runs| ==> pos[i] <= |runs[i].entries|
  }

  /** The queue order: smaller head key first, then rank. */
  predicate Beats(a: Run, i: nat, b: Run, j: nat)
    requires i < |a.entries| && j < |b.entries|
  {
    var ka, kb := a.entries[i].key, b.entries[j].key;
    if ka != kb then Below(ka, kb) else Outranks(a, b)
  }

  /** Run `w` is on top of the queue: no other head beats its head. */
  ghost predicate IsTop(runs: seq<Run>, pos: seq<nat>, w: nat)
    requires InBounds(runs, pos)
  {
    && w < |runs| && pos[w] < |runs[w].entries|
    && forall r :: 0 <= r < |runs| && pos[r] < |runs[r].entries| ==> !Beats(runs[r], pos[r], runs[w], pos[w])
  }

  ghost predicate Exhausted(runs: seq<Run>, pos: seq<nat>)
    requires InBounds(runs, pos)
  {
    forall i :: 0 <= i < |runs| ==> pos[i] == |runs[i].entries|
  }

  /** The top of the priority queue over the runs not yet exhausted. */
  method Top(runs: seq<Run>, pos: seq<nat>) returns (w: nat)
    requires InBounds(runs, pos)
    ensures w <= |runs|
    ensures if w == |runs| then Exhausted(runs, pos) else IsTop(runs, pos, w)
  {
    KeyOrder();
    w := |runs|;
    var i := 0;
    while i < |runs|
      invariant i <= |runs|
      invariant w == |runs| || w < i
      invariant w == |runs| ==> forall j :: 0 <= j < i ==> pos[j] == |runs[j].entries|
      invariant w < |runs| ==> pos[w] < |runs[w].entries|
      invariant w < |runs| ==> forall j :: 0 <= j < i && pos[j] < |runs[j].entries| ==>
                                 !Beats(runs[j], pos[j], runs[w], pos[w])
    {
      if pos[i] < |runs[i].entries| {
        if w == |runs| || Beats(runs[i], pos[i], runs[w], pos[w]) {
          w := i;
        }
      }
      i := i + 1;
    }
  }

  // ------------------------------------------------------- the loop invariant

  /** Everything up to `last` has been consumed and `out` is its merge. */
  ghost predicate MergedUpTo(runs: seq<Run>, pos: seq<nat>, bottom: bool, last: Option<Key>, out: seq<Entry>) {
    && InBounds(runs, pos)
    && (last.None? ==> out == [] && forall i :: 0 <= i < |runs| ==> pos[i] == 0)
    && (last.Some? ==> Split(runs, pos, last.value))
    && Sorted(out)
    && (last.Some? ==> forall i :: 0 <= i < |out| ==> AtMost(out[i].key, last.value))
    && (last.Some? ==> forall k :: AtMost(k, last.value) ==> Find(out, k) == Keep(bottom, RunsGet(runs, k)))
  }

  ghost predicate Split(runs: seq<Run>, pos: seq<nat>, last: Key)
    requires InBounds(runs, pos)
  {
    && (forall i, j :: 0 <= i < |runs| && 0 <= j < pos[i] ==> AtMost(runs[i].entries[j].key, last))
    && (forall i, j :: 0 <= i < |runs| && pos[i] <= j < |runs[i].entries| ==> AtMost(last, runs[i].entries[j].key))
  }

  lemma {:induction false} RunsGetNone(runs: seq<Run>, k: Key)
    requires forall i :: 0 <= i < |runs| ==> Find(runs[i].entries, k).None?
    ensures RunsGet(runs, k).None?
  {
    if runs != [] {
      RunsGetNone(runs[1..], k);
    }
  }

  lemma {:induction false} RunsGetFirst(runs: seq<Run>, k: Key, w: nat)
    requires w < |runs| && Find(runs[w].entries, k).Some?
    requires forall i :: 0 <= i < w ==> Find(runs[i].entries, k).None?
    ensures RunsGet(runs, k) == Find(runs[w].entries, k)
  {
    if w > 0 {
      RunsGetFirst(runs[1..], k, w - 1);
    }
  }

  lemma {:induction false} FindAppend(es: seq<Entry>, e: Entry, k: Key)
    ensures Find(es + [e], k) == OrElse(Find(es, k), if e.key == k then Some(e.ptr) else None)
  {
    if es != [] {
      assert (es + [e])[1..] == es[1..] + [e];
      FindAppend(es[1..], e, k);
    }
  }

  /** All keys left in the runs are at least the key on top of the queue. */
  lemma TopIsLeast(runs: seq<Run>, pos: seq<nat>, w: nat, i: nat, j: nat)
    requires RunsOk(runs) && InBounds(runs, pos)
    requires IsTop(runs, pos, w)
    requires i < |runs| && pos[i] <= j < |runs[i].entries|
    ensures AtMost(runs[w].entries[pos[w]].key, runs[i].entries[j].key)
    ensures runs[i].entries[j].key == runs[w].entries[pos[w]].key ==> j == pos[i] && !Outranks(runs[i], runs[w])
  {
    KeyOrder();
    assert Sorted(runs[i].entries);
  }

  /** The pointer on top is the one the merge must produce for a key not yet seen. */
  lemma TopWins(runs: seq<Run>, pos: seq<nat>, w: nat, last: Option<Key>)
    requires RunsOk(runs) && InBounds(runs, pos)
    requires IsTop(runs, pos, w)
    requires last.None? ==> forall i :: 0 <= i < |runs| ==> pos[i] == 0
    requires last.Some? ==> Split(runs, pos, last.value) && Below(last.value, runs[w].entries[pos[w]].key)
    ensures RunsGet(runs, runs[w].entries[pos[w]].key) == Some(runs[w].entries[pos[w]].ptr)
  {
    var c := runs[w].entries[pos[w]].key;
    FindAt(runs[w].entries, pos[w]);
    forall i | 0 <= i < w ensures Find(runs[i].entries, c).None? {
      EarlierMisses(runs, pos, w, last, i);
    }
    RunsGetFirst(runs, c, w);
  }

  lemma EarlierMisses(runs: seq<Run>, pos: seq<nat>, w: nat, last: Option<Key>, i: nat)
    requires RunsOk(runs) && InBounds(runs, pos)
    requires IsTop(runs, pos, w) && i < w
    requires Find(runs[w].entries, runs[w].entries[pos[w]].key).Some?
    requires last.None? ==> forall r :: 0 <= r < |runs| ==> pos[r] == 0
    requires last.Some? ==> Split(runs, pos, last.value) && Below(last.value, runs[w].entries[pos[w]].key)
    ensures Find(runs[i].entries, runs[w].entries[pos[w]].key).None?
  {
    var c := runs[w].entries[pos[w]].key;
    var es := runs[i].entries;
    forall j | 0 <= j < |es| ensures es[j].key == c ==> !Outranks(runs[i], runs[w]) {
      if j >= pos[i] {
        TopIsLeast(runs, pos, w, i, j);
      } else {
        assert AtMost(es[j].key, last.value);
      }
    }
    assert Find(es, c).Some? ==> Outranks(runs[i], runs[w]);
  }

  /** Keys strictly between the last one emitted and the top are in no run. */
  lemma GapIsEmpty(runs: seq<Run>, pos: seq<nat>, w: nat, last: Option<Key>, k: Key)
    requires RunsOk(runs) && InBounds(runs, pos)
    requires IsTop(runs, pos, w)
    requires last.None? ==> forall i :: 0 <= i < |runs| ==> pos[i] == 0
    requires last.Some? ==> Split(runs, pos, last.value) && Below(last.value, k)
    requires Below(k, runs[w].entries[pos[w]].key)
    ensures RunsGet(runs, k).None?
  {
    forall i | 0 <= i < |runs| ensures Find(runs[i].entries, k).None? {
      if Find(runs[i].entries, k).Some? {
        var j: nat :| j < |runs[i].entries| && runs[i].entries[j].key == k;
        if j >= pos[i] {
          TopIsLeast(runs, pos, w, i, j);
        }
      }
    }
    RunsGetNone(runs, k);
  }

  /** Popping the top keeps the split between consumed and remaining keys. */
  lemma SplitAdvance(runs: seq<Run>, pos: seq<nat>, w: nat, last: Option<Key>)
    requires RunsOk(runs) && InBounds(runs, pos)
    requires IsTop(runs, pos, w)
    requires last.None? ==> forall i :: 0 <= i < |runs| ==> pos[i] == 0
    requires last.Some? ==> Split(runs, pos, last.value)
    ensures Split(runs, pos[w := pos[w] + 1], runs[w].entries[pos[w]].key)
  {
    var c := runs[w].entries[pos[w]].key;
    var next := pos[w := pos[w] + 1];
    forall i, j | 0 <= i < |runs| && next[i] <= j < |runs[i].entries|
      ensures AtMost(c, runs[i].entries[j].key)
    {
      TopIsLeast(runs, pos, w, i, j);
    }
    forall i, j | 0 <= i < |runs| && 0 <= j < next[i]
      ensures AtMost(runs[i].entries[j].key, c)
    {
      KeyOrder();
      if j < pos[i] {
        assert AtMost(runs[i].entries[j].key, last.value);
        TopIsLeast(runs, pos, w, w, pos[w]);
        assert AtMost(last.value, c);
      }
    }
  }

  /** What the merge holds for each key once the entry on top is dealt with. */
  lemma EmitMeaning(runs: seq<Run>, pos: seq<nat>, bottom: bool, last: Option<Key>, out: seq<Entry>, w: nat, k: Key)
    requires RunsOk(runs) && MergedUpTo(runs, pos, bottom, last, out)
    requires IsTop(runs, pos, w)
    requires last.Some? ==> Below(last.value, runs[w].entries[pos[w]].key)
    requires AtMost(k, runs[w].entries[pos[w]].key)
    ensures var e := runs[w].entries[pos[w]];
            Find(if bottom && IsTombstone(e.ptr) then out else out + [e], k) == Keep(bottom, RunsGet(runs, k))
  {
    var e := runs[w].entries[pos[w]];
    FindAppend(out, e, k);
    if last.None? || Below(last.value, k) {
      assert Find(out, k).None? by {
        forall i | 0 <= i < |out| ensures out[i].key != k {
          assert AtMost(out[i].key, last.value);
          BelowIrreflexive(k);
        }
      }
      if k == e.key {
        TopWins(runs, pos, w, last);
      } else {
        BelowTotal(k, e.key);
        GapIsEmpty(runs, pos, w, last, k);
      }
    } else {
      assert k != e.key;
    }
  }

  lemma SortedAppend(out: seq<Entry>, e: Entry, last: Option<Key>)
    requires Sorted(out) && (last.None? ==> out == [])
    requires last.Some? ==> Below(last.value, e.key) && forall i :: 0 <= i < |out| ==> AtMost(out[i].key, last.value)
    ensures Sorted(out + [e])
    ensures forall i :: 0 <= i < |out| ==> Below(out[i].key, e.key)
  {
    KeyOrder();
    forall i | 0 <= i < |out| ensures Below(out[i].key, e.key) {
      assert AtMost(out[i].key, last.value);
    }
  }

  /** One turn of the merge loop. */
  lemma MergeTurn(runs: seq<Run>, pos: seq<nat>, bottom: bool, last: Option<Key>, out: seq<Entry>, w: nat)
    requires RunsOk(runs) && MergedUpTo(runs, pos, bottom, last, out)
    requires IsTop(runs, pos, w)
    ensures var e := runs[w].entries[pos[w]];
            var skip := last == Some(e.key) || (bottom && IsTombstone(e.ptr));
            MergedUpTo(runs, pos[w := pos[w] + 1], bottom, Some(e.key), if skip then out else out + [e])
  {
    var e := runs[w].entries[pos[w]];
    SplitAdvance(runs, pos, w, last);
    if last != Some(e.key) {
      if last.Some? {
        assert AtMost(last.value, e.key);
        BelowTotal(last.value, e.key);
      }
      var out' := if bottom && IsTombstone(e.ptr) then out else out + [e];
      SortedAppend(out, e, last);
      forall i | 0 <= i < |out'| ensures AtMost(out'[i].key, e.key) {
        BelowIrreflexive(e.key);
        if i < |out| && Below(e.key, out[i].key) {
          BelowTransitive(out[i].key, e.key, out[i].key);
          BelowIrreflexive(out[i].key);
        }
      }
      forall k | AtMost(k, e.key) ensures Find(out', k) == Keep(bottom, RunsGet(runs, k)) {
        EmitMeaning(runs, pos, bottom, last, out, w, k);
      }
    }
  }

  /** When the queue is empty the merge is complete. */
  lemma MergeDone(runs: seq<Run>, pos: seq<nat>, bottom: bool, last: Option<Key>, out: seq<Entry>, k: Key)
    requires RunsOk(runs) && MergedUpTo(runs, pos, bottom, last, out)
    requires Exhausted(runs, pos)
    ensures Find(out, k) == Keep(bottom, RunsGet(runs, k))
  {
    KeyOrder();
    if last.None? || Below(last.value, k) {
      forall i | 0 <= i < |runs| ensures Find(runs[i].entries, k).None? {
        assert forall j :: 0 <= j < |runs[i].entries| ==> runs[i].entries[j].key != k;
      }
      RunsGetNone(runs, k);
      assert forall i :: 0 <= i < |out| ==> out[i].key != k;
    }
  }
}
