/** Removing table files nobody needs, while versions come and go and files are being written. */
module Purge {
  import opened Keys

  type FileSet = set<nat>

  /** A purge under way: what it copied under the lock. */
  datatype Snapshot = Snapshot(live: FileSet, pending: FileSet, limit: nat)

  /** `versions` are all versions ever installed, as the numbers of their files. Readers and the store hold
      versions by index; `active` lists the versions watched for being alive. `made` are the files on disk. */
  datatype State = State(next: nat, pending: FileSet, versions: seq<FileSet>, current: nat, readers: map<nat, nat>,
                         active: seq<nat>, purges: map<nat, Snapshot>, made: FileSet)

  datatype Step =
    | Allocate                                         // new_file_number
    | Create(n: nat)                                   // an allocated table file appears on disk
    | Abandon(n: nat)                                  // remove_pending_output
    | Install(deleted: FileSet, added: FileSet)        // log_and_apply
    | Take(r: nat) | Drop(r: nat)                      // a reader takes or drops the current version
    | Start(p: nat) | Remove(p: nat, n: nat) | Finish(p: nat)

  predicate Alive(s: State, v: nat) {
    v == s.current || v in s.readers.Values
  }

  function Files(s: State, v: nat): FileSet {
    if v < |s.versions| then s.versions[v] else {}
  }

  predicate Removable(x: Snapshot, n: nat) {
    n !in x.live && n !in x.pending && n < x.limit
  }

  ghost predicate Enabled(s: State, step: Step) {
    match step
    case Allocate => true
    case Create(n) => n in s.pending
    case Abandon(n) => n in s.pending
    case Install(_, added) => added <= s.pending && added <= s.made
    case Take(r) => r !in s.readers
    case Drop(r) => r in s.readers
    case Start(p) => p !in s.purges
    case Remove(p, n) => p in s.purges && n in s.made && Removable(s.purges[p], n)
    case Finish(p) => p in s.purges
  }

  /** The files of the watched versions that are still alive. */
  function LiveFiles(s: State, active: seq<nat>): FileSet {
    if active == [] then {}
    else
      var v := active[|active| - 1];
      LiveFiles(s, active[..|active| - 1]) + if Alive(s, v) then Files(s, v) else {}
  }

  function Watched(s: State, active: seq<nat>): (r: seq<nat>)
    ensures forall v :: v in r <==> v in active && Alive(s, v)
  {
    if active == [] then []
    else
      var front, v := Watched(s, active[..|active| - 1]), active[|active| - 1];
      assert active == active[..|active| - 1] + [v];
      if Alive(s, v) then front + [v] else front
  }

  ghost function Do(s: State, step: Step): State
    requires Enabled(s, step)
  {
    match step
    case Allocate => s.(next := s.next + 1, pending := s.pending + {s.next + 1})
    case Create(n) => s.(made := s.made + {n})
    case Abandon(n) => s.(pending := s.pending - {n})
    case Install(deleted, added) =>
      var v := |s.versions|;
      s.(versions := s.versions + [(Files(s, s.current) - deleted) + added], current := v, active := s.active + [v],
         pending := s.pending - added)
    case Take(r) => s.(readers := s.readers[r := s.current])
    case Drop(r) => s.(readers := s.readers - {r})
    case Start(p) =>
      s.(purges := s.purges[p := Snapshot(LiveFiles(s, s.active), s.pending, s.next)], active := Watched(s, s.active))
    case Remove(p, n) => s.(made := s.made - {n})
    case Finish(p) => s.(purges := s.purges - {p})
  }

  // --------------------------------------------------------- the two phases

  /** Under the lock: collects the files of live versions and forgets the dead ones. */
  method CollectLive(s: State) returns (live: FileSet, active: seq<nat>)
    ensures live == LiveFiles(s, s.active) && active == Watched(s, s.active)
  {
    live, active := {}, [];
    var i := 0;
    while i < |s.active|
      invariant i <= |s.active| && live == LiveFiles(s, s.active[..i]) && active == Watched(s, s.active[..i])
    {
      assert s.active[..i + 1][..i] == s.active[..i];
      if Alive(s, s.active[i]) {
        live := live + Files(s, s.active[i]);
        active := active + [s.active[i]];
      }
      i := i + 1;
    }
    assert s.active[..i] == s.active;
  }

  /** Outside the lock: goes through a directory listing and removes what the snapshot does not spare. */
  method RemoveFiles(x: Snapshot, listing: seq<nat>, made: FileSet) returns (left: FileSet)
    ensures forall n :: n in left <==> n in made && !(n in listing && Removable(x, n))
  {
    left := made;
    var i := 0;
    while i < |listing|
      invariant i <= |listing|
      invariant forall n :: n in left <==> n in made && !(n in listing[..i] && Removable(x, n))
    {
      assert listing[..i + 1] == listing[..i] + [listing[i]];
      if Removable(x, listing[i]) {
        left := left - {listing[i]};
      }
      i := i + 1;
    }
    assert listing[..i] == listing;
  }

  // -------------------------------------------------------------- invariants

  /** In a version someone holds, or still being written. */
  ghost predicate Needed(s: State, n: nat) {
    n in s.pending || exists v :: Alive(s, v) && n in Files(s, v)
  }

  /** A needed file of a held version is on disk. */
  ghost predicate Intact(s: State) {
    forall v, n :: Alive(s, v) && n in Files(s, v) ==> n in s.made
  }

  ghost predicate Spared(s: State) {
    forall p, n :: p in s.purges && Needed(s, n) ==> !Removable(s.purges[p], n)
  }

  ghost predicate Numbered(s: State) {
    && s.current < |s.versions|
    && (forall n :: n in s.pending ==> n <= s.next) && (forall p :: p in s.purges ==> s.purges[p].limit <= s.next)
    && forall r :: r in s.readers ==> s.readers[r] < |s.versions|
  }

  /** Every held version with files is watched. */
  ghost predicate AllWatched(s: State) {
    forall v: nat :: Alive(s, v) && Files(s, v) != {} ==> v in s.active
  }

  ghost predicate Inv(s: State) {
    Intact(s) && Spared(s) && Numbered(s) && AllWatched(s)
  }

  /** A store just opened: the recovered version is watched; one without a manifest is empty and unwatched. */
  ghost predicate Initial(s: State) {
    && s.next >= 1 && s.pending == {} && s.readers == map[] && s.purges == map[] && |s.versions| == 1 && s.current == 0
    && s.versions[0] <= s.made && (s.active == [0] || (s.active == [] && s.versions[0] == {}))
  }

  // ------------------------------------------------------------------- steps

  lemma {:induction false} LiveCovers(s: State, active: seq<nat>, v: nat)
    requires v in active && Alive(s, v)
    ensures Files(s, v) <= LiveFiles(s, active)
  {
    var n := |active| - 1;
    if active[n] != v {
      assert v in active[..n];
      LiveCovers(s, active[..n], v);
    }
  }

  /** What a purge copies under the lock spares everything needed at that moment. */
  lemma StartStep(s: State, step: Step)
    requires Inv(s) && Enabled(s, step) && step.Start?
    ensures Inv(Do(s, step))
  {
    hide Watched, LiveFiles;
    var s', p := Do(s, step), step.p;
    assert forall v :: Alive(s', v) <==> Alive(s, v);
    assert forall v :: Files(s', v) == Files(s, v);
    forall n | Needed(s', n) ensures !Removable(s'.purges[p], n) {
      if n !in s.pending {
        var v :| Alive(s', v) && n in Files(s', v);
        LiveCovers(s, s.active, v);
      }
    }
    forall q, n | q in s'.purges && Needed(s', n) ensures !Removable(s'.purges[q], n) {
      assert Needed(s, n);
    }
  }

  /** An installed version only has files that were already needed. */
  lemma InstallStep(s: State, step: Step)
    requires Inv(s) && Enabled(s, step) && step.Install?
    ensures Inv(Do(s, step))
  {
    var s', w := Do(s, step), |s.versions|;
    assert forall v: nat :: v < w ==> Files(s', v) == Files(s, v);
    forall v, n | Alive(s', v) && n in Files(s', v) ensures n in s'.made && (n in s.pending || Needed(s, n)) {
      if v == w {
        assert n in step.added || n in Files(s, s.current);
        assert Alive(s, s.current);
      } else {
        assert v in s.readers.Values && Alive(s, v);
      }
    }
    forall n | Needed(s', n) ensures Needed(s, n) {
    }
    forall v: nat | Alive(s', v) && Files(s', v) != {} ensures v in s'.active {
      if v != w { assert Alive(s, v); }
    }
  }

  lemma HoldStep(s: State, step: Step)
    requires Inv(s) && Enabled(s, step) && (step.Take? || step.Drop?)
    ensures Inv(Do(s, step))
  {
    var s' := Do(s, step);
    assert forall v :: Files(s', v) == Files(s, v);
    forall v | Alive(s', v) ensures Alive(s, v) {
      if v != s.current {
        var r :| r in s'.readers && s'.readers[r] == v;
        assert r in s.readers && s.readers[r] == v;
      }
    }
    forall n | Needed(s', n) ensures Needed(s, n) {
    }
  }

  lemma FileStep(s: State, step: Step)
    requires Inv(s) && Enabled(s, step)
             && (step.Allocate? || step.Create? || step.Abandon? || step.Finish? || step.Remove?)
    ensures Inv(Do(s, step))
  {
    var s' := Do(s, step);
    assert forall v :: Files(s', v) == Files(s, v) && (Alive(s', v) <==> Alive(s, v));
    forall n | Needed(s', n) ensures Needed(s, n) || (step.Allocate? && n == s.next + 1) {
    }
    forall p, n | p in s'.purges && Needed(s', n) ensures !Removable(s'.purges[p], n) {
      assert p in s.purges && s'.purges[p] == s.purges[p];
    }
    if step.Remove? {
      forall v, n | Alive(s', v) && n in Files(s', v) ensures n in s'.made {
        assert Needed(s, n);
      }
    }
  }

  lemma InvStep(s: State, step: Step)
    requires Inv(s) && Enabled(s, step)
    ensures Inv(Do(s, step))
  {
    hide Inv, Enabled, Do;
    match step
    case Allocate => FileStep(s, step);
    case Create(_) => FileStep(s, step);
    case Abandon(_) => FileStep(s, step);
    case Install(_, _) => InstallStep(s, step);
    case Take(_) => HoldStep(s, step);
    case Drop(_) => HoldStep(s, step);
    case Start(_) => StartStep(s, step);
    case Remove(_, _) => FileStep(s, step);
    case Finish(_) => FileStep(s, step);
  }

  // -------------------------------------------------------------------- runs

  ghost predicate Stepped(s: State, step: Step, s': State) {
    Enabled(s, step) && s' == Do(s, step)
  }

  /** A run: `steps[i]` leads from `run[i]` to the next state. */
  ghost predicate IsRun(run: seq<State>, steps: seq<Step>) {
    && |run| == |steps| + 1 && Initial(run[0])
    && forall i :: 0 <= i < |steps| ==> Stepped(run[i], steps[i], run[i + 1])
  }

  lemma {:induction false} RunInv(run: seq<State>, steps: seq<Step>, n: nat)
    requires IsRun(run, steps) && n < |run|
    ensures Inv(run[n])
  {
    hide Inv, Enabled, Do;
    if n == 0 {
      InitialInv(run[0]);
    } else {
      RunInv(run, steps, n - 1);
      assert Stepped(run[n - 1], steps[n - 1], run[n - 1 + 1]);
      InvStep(run[n - 1], steps[n - 1]);
    }
  }

  lemma InitialInv(s: State)
    requires Initial(s)
    ensures Inv(s)
  {
  }

  // -------------------------------------------- what versions should hold

  /** The files of the current version after some steps: what the installs among them make of the first. */
  function FilesAfter(files: FileSet, steps: seq<Step>): FileSet {
    if steps == [] then files
    else
      var before, step := FilesAfter(files, steps[..|steps| - 1]), steps[|steps| - 1];
      if step.Install? then before - step.deleted + step.added else before
  }

  /** The counter and the numbers taken for files being written, after some steps. */
  function NumbersAfter(next: nat, steps: seq<Step>): (nat, FileSet) {
    if steps == [] then (next, {})
    else
      var (n, taken) := NumbersAfter(next, steps[..|steps| - 1]);
      match steps[|steps| - 1]
      case Allocate => (n + 1, taken + {n + 1})
      case Abandon(f) => (n, taken - {f})
      case Install(_, added) => (n, taken - added)
      case _ => (n, taken)
  }

  /** Whether a reader holds a version: it has taken one and not dropped it since. */
  predicate Holds(steps: seq<Step>, r: nat) {
    if steps == [] then false
    else
      var step := steps[|steps| - 1];
      step == Take(r) || (step != Drop(r) && Holds(steps[..|steps| - 1], r))
  }

  /** Numbers are taken in order, and taken ones are those allocated and neither given up nor installed; the readers
      are those that hold a version. */
  lemma {:induction false} NumbersAndReaders(run: seq<State>, steps: seq<Step>, n: nat, r: nat)
    requires IsRun(run, steps) && n < |run|
    ensures NumbersAfter(run[0].next, steps[..n]) == (run[n].next, run[n].pending)
    ensures r in run[n].readers <==> Holds(steps[..n], r)
  {
    hide Enabled, Watched, LiveFiles;
    if n == 0 {
      assert steps[..0] == [];
    } else {
      NumbersAndReaders(run, steps, n - 1, r);
      RunStep(run, steps, n - 1);
      assert steps[..n][..n - 1] == steps[..n - 1];
    }
  }

  lemma {:induction false} CurrentFiles(run: seq<State>, steps: seq<Step>, n: nat)
    requires IsRun(run, steps) && n < |run|
    ensures Files(run[n], run[n].current) == FilesAfter(run[0].versions[0], steps[..n])
  {
    hide Inv, Enabled, Initial;
    if n == 0 {
      assert steps[..0] == [];
      FirstFiles(run[0]);
    } else {
      CurrentFiles(run, steps, n - 1);
      RunInv(run, steps, n - 1);
      RunStep(run, steps, n - 1);
      FilesStep(run[n - 1], steps[n - 1], run[n]);
      assert steps[..n][..n - 1] == steps[..n - 1];
    }
  }

  lemma FirstFiles(s: State)
    requires Initial(s)
    ensures Files(s, s.current) == s.versions[0]
  {
  }

  lemma FilesStep(s: State, step: Step, s': State)
    requires Stepped(s, step, s') && Inv(s)
    ensures Files(s', s'.current) == if step.Install? then Files(s, s.current) - step.deleted + step.added
                                     else Files(s, s.current)
    ensures forall v: nat :: v < |s.versions| ==> v < |s'.versions| && Files(s', v) == Files(s, v)
  {
    hide Intact, Spared, AllWatched;
  }

  /** Over every interleaving: the files of the current version, added by its installs and not deleted since, are on
      disk, as are those of every held version; and no purge removes one of these or one still being written. */
  lemma PurgeSafe(run: seq<State>, steps: seq<Step>, n: nat)
    requires IsRun(run, steps) && n < |run|
    ensures FilesAfter(run[0].versions[0], steps[..n]) <= run[n].made
    ensures forall v, f :: Alive(run[n], v) && f in Files(run[n], v) ==> f in run[n].made
    ensures n < |steps| && steps[n].Remove? ==> !Needed(run[n], steps[n].n)
  {
    hide Initial, FilesAfter, Numbered, AllWatched;
    RunInv(run, steps, n);
    CurrentFiles(run, steps, n);
    assert Alive(run[n], run[n].current);
    if n < |steps| { RunStep(run, steps, n); }
  }

  /** A reader holds the version that was current when it took it. */
  lemma {:induction false} HeldVersion(run: seq<State>, steps: seq<Step>, i: nat, n: nat, r: nat)
    requires IsRun(run, steps) && i < n < |run| && steps[i] == Take(r)
    requires forall x :: i < x < n ==> steps[x] != Drop(r)
    ensures r in run[n].readers && run[n].readers[r] == run[i].current < |run[i].versions| <= |run[n].versions|
    ensures Files(run[n], run[i].current) == Files(run[i], run[i].current)
    decreases n
  {
    hide Initial, Inv, Stepped, Files;
    RunStep(run, steps, n - 1);
    RunInv(run, steps, n - 1);
    FilesStep(run[n - 1], steps[n - 1], run[n]);
    if i == n - 1 {
      TakeStep(run[i], run[n], r);
    } else {
      HeldVersion(run, steps, i, n - 1, r);
      KeepsHolding(run[n - 1], steps[n - 1], run[n], r);
    }
  }

  lemma TakeStep(s: State, s': State, r: nat)
    requires Stepped(s, Take(r), s') && Inv(s)
    ensures r in s'.readers && s'.readers[r] == s.current < |s.versions| == |s'.versions|
  {
    hide Intact, Spared, AllWatched;
  }

  lemma KeepsHolding(s: State, step: Step, s': State, r: nat)
    requires Stepped(s, step, s') && r in s.readers && step != Drop(r)
    ensures r in s'.readers && s'.readers[r] == s.readers[r] && |s.versions| <= |s'.versions|
  {
    hide Watched, LiveFiles;
  }

  /** A reader that took the version at step `i` and has not dropped it finds all its files on disk, whatever has
      been installed and purged since. */
  lemma HeldSafe(run: seq<State>, steps: seq<Step>, i: nat, n: nat, r: nat)
    requires IsRun(run, steps) && i < n < |run| && steps[i] == Take(r)
    requires forall x :: i < x < n ==> steps[x] != Drop(r)
    ensures FilesAfter(run[0].versions[0], steps[..i]) <= run[n].made
  {
    hide IsRun, FilesAfter, Spared, Numbered, AllWatched;
    RunInv(run, steps, n);
    CurrentFiles(run, steps, i);
    HeldVersion(run, steps, i, n, r);
    assert run[i].current in run[n].readers.Values;
    assert Alive(run[n], run[i].current);
  }

  /** A file written and neither installed nor given up since is on disk. */
  lemma {:induction false} WrittenSafe(run: seq<State>, steps: seq<Step>, i: nat, n: nat, f: nat)
    requires IsRun(run, steps) && i < n < |run| && steps[i] == Create(f)
    requires forall x :: i < x < n ==> steps[x] != Abandon(f) && !(steps[x].Install? && f in steps[x].added)
    ensures f in run[n].made && f in run[n].pending
    decreases n
  {
    hide Initial, Inv, Stepped;
    RunStep(run, steps, n - 1);
    RunInv(run, steps, n - 1);
    if i < n - 1 { WrittenSafe(run, steps, i, n - 1, f); }
    WrittenStep(run[n - 1], steps[n - 1], run[n], f);
  }

  lemma WrittenStep(s: State, step: Step, s': State, f: nat)
    requires Stepped(s, step, s') && Inv(s) && step != Abandon(f) && !(step.Install? && f in step.added)
    requires step == Create(f) || (f in s.made && f in s.pending)
    ensures f in s'.made && f in s'.pending
  {
    hide Intact, Numbered, AllWatched, Watched, LiveFiles;
    assert f in s.pending ==> Needed(s, f);
  }

  /** Garbage goes: once a purge has started, it may remove every file on disk that is in no version held at that
      moment, was not being written, and is below the counter. */
  lemma GarbageRemovable(s: State, s': State, p: nat, f: nat)
    requires Inv(s) && Stepped(s, Start(p), s')
    requires f in s.made && f !in s.pending && f < s.next && forall v: nat :: Alive(s, v) ==> f !in Files(s, v)
    ensures Enabled(s', Remove(p, f)) && f !in Do(s', Remove(p, f)).made
  {
    hide Intact, Spared, AllWatched, Watched, LiveFiles, Files;
    LiveOnly(s, s.active, f);
  }

  lemma {:induction false} LiveOnly(s: State, active: seq<nat>, f: nat)
    requires forall v: nat :: Alive(s, v) ==> f !in Files(s, v)
    ensures f !in LiveFiles(s, active)
  {
    hide Alive, Files;
    if active != [] { LiveOnly(s, active[..|active| - 1], f); }
  }

  lemma RunStep(run: seq<State>, steps: seq<Step>, n: nat)
    requires IsRun(run, steps)
    ensures n < |steps| ==> n + 1 < |run| && Stepped(run[n], steps[n], run[n + 1])
  {
  }
}
