/** Group commit: writers push onto a compare-and-swap stack, and whoever found it empty leads a batch. */
module GroupCommit {
  import opened Keys

  /** Where a write request's thread stands. */
  datatype Phase =
    | New
    | Linked                                        // has read the queue head into its own link
    | Waiting                                       // pushed behind another request
    | Won                                           // pushed onto an empty queue: leads
    | Locked                                        // leader holding the commit lock
    | Walking(list: seq<nat>, at: Option<nat>)      // follows the links of the queue it took
    | Drained(batch: seq<nat>)                      // has the batch, oldest first
    | Finishing(b: nat)                             // committed batch `b`, marks its requests completed
    | Returned

  /** A committed batch, and how many of its requests have been marked completed. */
  datatype Batch = Batch(items: seq<nat>, done: nat)

  /** Requests are numbered. `pushed`, `stack` and `taken` record what the pointers mean:
      the order of successful swaps, the queue newest first, and the queue last taken. */
  datatype State = State(phase: map<nat, Phase>, older: map<nat, Option<nat>>, head: Option<nat>, lock: Option<nat>,
                         batches: seq<Batch>, pushed: seq<nat>, stack: seq<nat>, taken: seq<nat>)

  datatype Step =
    | Load(r: nat) | SwapFails(r: nat) | SwapWins(r: nat)
    | Acquire(r: nat) | Exchange(r: nat) | Walk(r: nat) | Reverse(r: nat) | Commit(r: nat)
    | Complete(r: nat) | LeaderReturns(r: nat) | FollowerReturns(r: nat)

  function PhaseOf(s: State, r: nat): Phase {
    if r in s.phase then s.phase[r] else New
  }

  function Older(s: State, r: nat): Option<nat> {
    if r in s.older then s.older[r] else None
  }

  function Reversed(xs: seq<nat>): (ys: seq<nat>)
    ensures |ys| == |xs| && forall i :: 0 <= i < |xs| ==> ys[i] == xs[|xs| - 1 - i]
  {
    seq(|xs|, i requires 0 <= i < |xs| => xs[|xs| - 1 - i])
  }

  function Items(bs: seq<Batch>): seq<nat> {
    if bs == [] then [] else Items(bs[..|bs| - 1]) + bs[|bs| - 1].items
  }

  ghost predicate Completed(s: State, r: nat) {
    exists b, i :: 0 <= b < |s.batches| && 0 <= i < s.batches[b].done && IsItem(s.batches, b, i, r)
  }

  ghost predicate IsItem(bs: seq<Batch>, b: int, i: int, r: nat) {
    0 <= b < |bs| && 0 <= i < |bs[b].items| && bs[b].items[i] == r
  }

  ghost predicate Enabled(s: State, step: Step) {
    var p := PhaseOf(s, step.r);
    match step
    case Load(_) => p.New?
    case SwapFails(_) => p.Linked?
    case SwapWins(r) => p.Linked? && Older(s, r) == s.head
    case Acquire(_) => p.Won? && s.lock.None?
    case Exchange(_) => p.Locked?
    case Walk(_) => p.Walking? && p.at.Some?
    case Reverse(_) => p.Walking? && p.at.None?
    case Commit(_) => p.Drained?
    case Complete(_) => p.Finishing? && p.b < |s.batches| && s.batches[p.b].done < |s.batches[p.b].items|
    case LeaderReturns(_) => p.Finishing? && p.b < |s.batches| && s.batches[p.b].done == |s.batches[p.b].items|
    case FollowerReturns(r) => p.Waiting? && Completed(s, r)
  }

  function SetPhase(s: State, r: nat, p: Phase): State {
    s.(phase := s.phase[r := p])
  }

  ghost function Do(s: State, step: Step): State
    requires Enabled(s, step)
  {
    var r := step.r;
    var p := PhaseOf(s, r);
    match step
    case Load(_) => SetPhase(s, r, Linked).(older := s.older[r := s.head])
    case SwapFails(_) => s.(older := s.older[r := s.head])
    case SwapWins(_) =>
      SetPhase(s, r, if Older(s, r).None? then Won else Waiting)
        .(head := Some(r), pushed := s.pushed + [r], stack := [r] + s.stack)
    case Acquire(_) => SetPhase(s, r, Locked).(lock := Some(r))
    case Exchange(_) => SetPhase(s, r, Walking([], s.head)).(head := None, taken := s.stack, stack := [])
    case Walk(_) => SetPhase(s, r, Walking(p.list + [p.at.value], Older(s, p.at.value)))
    case Reverse(_) => SetPhase(s, r, Drained(Reversed(p.list)))
    case Commit(_) => SetPhase(s, r, Finishing(|s.batches|)).(lock := None, batches := s.batches + [Batch(p.batch, 0)])
    case Complete(_) => s.(batches := s.batches[p.b := s.batches[p.b].(done := s.batches[p.b].done + 1)])
    case LeaderReturns(_) => SetPhase(s, r, Returned)
    case FollowerReturns(_) => SetPhase(s, r, Returned)
  }

  ghost predicate Initial(s: State) {
    s == State(map[], map[], None, None, [], [], [], [])
  }

  // -------------------------------------------------------------- invariants

  /** From `h`, the links spell out `xs`. */
  ghost predicate Chain(s: State, h: Option<nat>, xs: seq<nat>) {
    && h == (if xs == [] then None else Some(xs[0]))
    && forall i :: 0 <= i < |xs| ==> LinkOk(s, xs, i)
  }

  ghost predicate LinkOk(s: State, xs: seq<nat>, i: nat)
    requires i < |xs|
  {
    Older(s, xs[i]) == if i + 1 < |xs| then Some(xs[i + 1]) else None
  }

  ghost predicate Distinct(xs: seq<nat>) {
    forall i, j :: 0 <= i < j < |xs| ==> xs[i] != xs[j]
  }

  /** Requests taken off the queue and not yet committed, oldest first. */
  ghost function InFlight(s: State): seq<nat> {
    if s.lock.None? then []
    else
      var p := PhaseOf(s, s.lock.value);
      if p.Walking? then Reversed(s.taken) else if p.Drained? then p.batch else []
  }

  /** Nothing is lost, repeated or reordered on the way from the stack to the batches. */
  ghost predicate InOrder(s: State) {
    s.pushed == Items(s.batches) + InFlight(s) + Reversed(s.stack)
  }

  ghost predicate Pushed(s: State) {
    && Distinct(s.pushed)
    && forall r: nat :: r in s.pushed <==> !PhaseOf(s, r).New? && !PhaseOf(s, r).Linked?
  }

  /** Leads the queue as it stands: pushed onto the empty queue, not yet drained. */
  ghost predicate Leads(s: State, r: nat) {
    PhaseOf(s, r).Won? || PhaseOf(s, r).Locked?
  }

  /** The leader of a non-empty queue is the request at its bottom. */
  ghost predicate Led(s: State) {
    forall r: nat :: Leads(s, r) <==> s.stack != [] && r == s.stack[|s.stack| - 1]
  }

  /** Past the lock: the phases that run under it. */
  ghost predicate Inside(p: Phase) {
    p.Locked? || p.Walking? || p.Drained?
  }

  ghost predicate Exclusive(s: State) {
    forall r: nat :: Inside(PhaseOf(s, r)) <==> s.lock == Some(r)
  }

  ghost predicate WalkOk(s: State, r: nat) {
    var p := PhaseOf(s, r);
    && (p.Walking? ==> p.list <= s.taken && Chain(s, p.at, s.taken[|p.list|..]) && TakenBy(s.taken, r))
    && (p.Drained? ==> p.batch != [] && p.batch[0] == r)
  }

  /** A taken queue has its leader at the bottom. */
  ghost predicate TakenBy(taken: seq<nat>, r: nat) {
    taken != [] && taken[|taken| - 1] == r
  }

  ghost predicate BatchOk(s: State, b: nat)
    requires b < |s.batches|
  {
    var x := s.batches[b];
    && x.items != [] && x.done <= |x.items|
    && (PhaseOf(s, x.items[0]) == Finishing(b) || (PhaseOf(s, x.items[0]).Returned? && x.done == |x.items|))
  }

  ghost predicate FinishOk(s: State, r: nat) {
    var p := PhaseOf(s, r);
    && (p.Finishing? ==> p.b < |s.batches| && s.batches[p.b].items != [] && s.batches[p.b].items[0] == r)
    && (p.Returned? ==> Completed(s, r))
  }

  ghost predicate Inv(s: State) {
    && Chain(s, s.head, s.stack) && Pushed(s) && InOrder(s) && Led(s) && Exclusive(s)
    && (forall r: nat :: WalkOk(s, r)) && (forall r: nat :: FinishOk(s, r))
    && (forall b :: 0 <= b < |s.batches| ==> BatchOk(s, b))
  }

  // ------------------------------------------------------------------- steps

  lemma ChainKept(s: State, s': State, h: Option<nat>, xs: seq<nat>)
    requires Chain(s, h, xs) && forall x :: x in xs ==> Older(s', x) == Older(s, x)
    ensures Chain(s', h, xs)
  {
    forall i | 0 <= i < |xs| ensures LinkOk(s', xs, i) {
      assert xs[i] in xs && LinkOk(s, xs, i);
    }
  }

  lemma ReversedMembers(xs: seq<nat>)
    ensures forall x :: x in xs ==> x in Reversed(xs)
  {
    forall x | x in xs ensures x in Reversed(xs) {
      var i :| 0 <= i < |xs| && xs[i] == x;
      assert Reversed(xs)[|xs| - 1 - i] == x;
    }
  }

  lemma StackPushed(s: State)
    requires InOrder(s)
    ensures forall x :: x in s.stack ==> x in s.pushed
  {
    hide Items, InFlight, Reversed;
    ReversedMembers(s.stack);
  }

  lemma TakenPushed(s: State)
    requires InOrder(s) && s.lock.Some? && PhaseOf(s, s.lock.value).Walking?
    ensures forall x :: x in s.taken ==> x in s.pushed
  {
    hide Items, Reversed;
    ReversedMembers(s.taken);
    assert InFlight(s) == Reversed(s.taken);
  }

  ghost predicate Unpushed(p: Phase) {
    p.New? || p.Linked?
  }

  /** Only `r` moves. */
  ghost predicate OnlyMoves(s: State, s': State, r: nat) {
    forall x: nat :: x != r ==> PhaseOf(s', x) == PhaseOf(s, x)
  }

  /** A move that stays on the same side of the push, the lead and the lock. */
  lemma SameSides(s: State, s': State, r: nat)
    requires Pushed(s) && Led(s) && Exclusive(s) && OnlyMoves(s, s', r)
    requires s'.pushed == s.pushed && s'.stack == s.stack && s'.lock == s.lock
    requires Unpushed(PhaseOf(s', r)) == Unpushed(PhaseOf(s, r)) && Leads(s', r) == Leads(s, r)
    requires Inside(PhaseOf(s', r)) == Inside(PhaseOf(s, r))
    ensures Pushed(s') && Led(s') && Exclusive(s')
  {
    forall x: nat ensures Unpushed(PhaseOf(s', x)) == Unpushed(PhaseOf(s, x)) && Leads(s', x) == Leads(s, x)
                       && Inside(PhaseOf(s', x)) == Inside(PhaseOf(s, x)) {
    }
  }

  /** Only links of requests not yet pushed change. */
  lemma LinkStep(s: State, step: Step)
    requires Inv(s) && Enabled(s, step) && (step.Load? || step.SwapFails?)
    ensures Inv(Do(s, step))
  {
    hide Completed, Items, FinishOk, BatchOk, Led;
    var s', r := Do(s, step), step.r;
    assert r !in s.pushed && s.lock != Some(r);
    StackPushed(s);
    ChainKept(s, s', s.head, s.stack);
    assert OnlyMoves(s, s', r);
    SameSides(s, s', r);
    assert InFlight(s') == InFlight(s);
    forall x: nat ensures WalkOk(s', x) {
      assert WalkOk(s, x);
      if PhaseOf(s, x).Walking? {
        assert s.lock == Some(x);
        TakenPushed(s);
        ChainKept(s, s', PhaseOf(s, x).at, s.taken[|PhaseOf(s, x).list|..]);
      }
    }
    Untouched(s, s', r);
  }

  /** Batches and completions are as before, and `r` was in no batch's lead. */
  lemma Untouched(s: State, s': State, r: nat)
    requires Inv(s) && s'.batches == s.batches && OnlyMoves(s, s', r)
    requires !PhaseOf(s, r).Finishing? && !PhaseOf(s, r).Returned?
    requires !PhaseOf(s', r).Finishing? && !PhaseOf(s', r).Returned?
    ensures forall x: nat :: FinishOk(s', x)
    ensures forall b :: 0 <= b < |s'.batches| ==> BatchOk(s', b)
  {
    hide Chain, Pushed, InOrder, Led, Exclusive, WalkOk;
    forall x: nat ensures FinishOk(s', x) {
      assert FinishOk(s, x);
      if x != r && PhaseOf(s, x).Returned? { CompletedKept(s, s', x); }
    }
    forall b | 0 <= b < |s'.batches| ensures BatchOk(s', b) {
      assert BatchOk(s, b);
    }
  }

  lemma CompletedKept(s: State, s': State, r: nat)
    requires s'.batches == s.batches && Completed(s, r)
    ensures Completed(s', r)
  {
  }

  lemma ReversedPush(r: nat, xs: seq<nat>)
    ensures Reversed([r] + xs) == Reversed(xs) + [r]
  {
  }

  lemma SwapStep(s: State, step: Step)
    requires Inv(s) && Enabled(s, step) && step.SwapWins?
    ensures Inv(Do(s, step))
  {
    hide Completed, Items, FinishOk, BatchOk, Chain, Reversed;
    var s', r := Do(s, step), step.r;
    assert r !in s.pushed && s.lock != Some(r);
    assert OnlyMoves(s, s', r);
    assert InFlight(s') == InFlight(s);
    ReversedPush(r, s.stack);
    assert s'.pushed == Items(s'.batches) + InFlight(s') + Reversed(s'.stack);
    ChainPush(s, s', r);
    ChainSame(s, s');
    forall x: nat ensures WalkOk(s', x) {
      assert WalkOk(s, x);
    }
    SwapSides(s, s', r);
    Untouched(s, s', r);
  }

  lemma ChainPush(s: State, s': State, r: nat)
    requires Chain(s, s.head, s.stack) && s'.older == s.older && Older(s, r) == s.head
    ensures Chain(s', Some(r), [r] + s.stack)
  {
    var xs := [r] + s.stack;
    forall i | 0 <= i < |xs| ensures LinkOk(s', xs, i) {
      if i > 0 { assert LinkOk(s, s.stack, i - 1); }
    }
  }

  lemma SwapSides(s: State, s': State, r: nat)
    requires Pushed(s) && Led(s) && Exclusive(s) && Chain(s, s.head, s.stack)
    requires PhaseOf(s, r).Linked? && OnlyMoves(s, s', r) && s'.lock == s.lock
    requires PhaseOf(s', r) == if s.head.None? then Won else Waiting
    requires s'.pushed == s.pushed + [r] && s'.stack == [r] + s.stack
    ensures Pushed(s') && Led(s') && Exclusive(s')
  {
    forall x: nat ensures x in s'.pushed <==> !Unpushed(PhaseOf(s', x)) {
    }
    forall x: nat ensures Leads(s', x) <==> x == s'.stack[|s'.stack| - 1] {
      assert Leads(s, x) <==> s.stack != [] && x == s.stack[|s.stack| - 1];
    }
    forall x: nat ensures Inside(PhaseOf(s', x)) == Inside(PhaseOf(s, x)) {
    }
  }

  lemma AcquireStep(s: State, step: Step)
    requires Inv(s) && Enabled(s, step) && step.Acquire?
    ensures Inv(Do(s, step))
  {
    hide Completed, Items, FinishOk, BatchOk, Chain;
    var s', r := Do(s, step), step.r;
    assert OnlyMoves(s, s', r);
    ChainSame(s, s');
    forall x: nat ensures Unpushed(PhaseOf(s', x)) == Unpushed(PhaseOf(s, x)) && Leads(s', x) == Leads(s, x) {
    }
    forall x: nat ensures Inside(PhaseOf(s', x)) <==> s'.lock == Some(x) {
    }
    forall x: nat ensures WalkOk(s', x) {
      assert WalkOk(s, x);
    }
    Untouched(s, s', r);
  }

  lemma ChainSame(s: State, s': State)
    requires s'.older == s.older
    ensures forall h, xs :: Chain(s, h, xs) ==> Chain(s', h, xs)
  {
    forall h, xs | Chain(s, h, xs) ensures Chain(s', h, xs) {
      ChainKept(s, s', h, xs);
    }
  }

  lemma ExchangeStep(s: State, step: Step)
    requires Inv(s) && Enabled(s, step) && step.Exchange?
    ensures Inv(Do(s, step))
  {
    hide Completed, Items, FinishOk, BatchOk, Chain;
    var s', r := Do(s, step), step.r;
    assert OnlyMoves(s, s', r);
    assert Leads(s, r) && s.lock == Some(r);
    ChainSame(s, s');
    forall x: nat ensures Unpushed(PhaseOf(s', x)) == Unpushed(PhaseOf(s, x)) && !Leads(s', x)
                       && Inside(PhaseOf(s', x)) == Inside(PhaseOf(s, x)) {
      assert Leads(s, x) ==> x == r;
    }
    assert s'.taken[0..] == s.stack;
    forall x: nat ensures WalkOk(s', x) {
      assert WalkOk(s, x);
      assert Inside(PhaseOf(s, x)) ==> x == r;
    }
    assert Chain(s', None, []) by { EmptyChain(s'); }
    assert s'.pushed == Items(s'.batches) + InFlight(s') + Reversed(s'.stack);
    Untouched(s, s', r);
  }

  /** Following the links collects the queue newest first; reversing it gives push order. */
  lemma WalkStep(s: State, step: Step)
    requires Inv(s) && Enabled(s, step) && (step.Walk? || step.Reverse?)
    ensures Inv(Do(s, step))
  {
    hide Completed, Items, FinishOk, BatchOk, Led, Pushed, Chain, Reversed;
    var s', r := Do(s, step), step.r;
    var p := PhaseOf(s, r);
    assert OnlyMoves(s, s', r);
    assert WalkOk(s, r) && s.lock == Some(r);
    SameSides(s, s', r);
    ChainSame(s, s');
    var rest := s.taken[|p.list|..];
    if step.Walk? {
      ChainTail(s, p.at, rest);
      assert rest[1..] == s.taken[|p.list| + 1..];
      assert p.list + [rest[0]] <= s.taken;
    } else {
      NoChain(s, rest);
      assert p.list == s.taken;
      ReversedFirst(s.taken);
    }
    assert InFlight(s') == InFlight(s);
    forall x: nat ensures WalkOk(s', x) {
      assert WalkOk(s, x);
      assert Inside(PhaseOf(s, x)) ==> x == r;
    }
    Untouched(s, s', r);
  }

  lemma NoChain(s: State, xs: seq<nat>)
    requires Chain(s, None, xs)
    ensures xs == []
  {
  }

  lemma ReversedFirst(xs: seq<nat>)
    requires xs != []
    ensures Reversed(xs) != [] && Reversed(xs)[0] == xs[|xs| - 1]
  {
  }

  lemma EmptyChain(s: State)
    ensures Chain(s, None, [])
  {
  }

  lemma ChainTail(s: State, h: Option<nat>, xs: seq<nat>)
    requires Chain(s, h, xs) && h.Some?
    ensures xs != [] && xs[0] == h.value && Chain(s, Older(s, h.value), xs[1..])
  {
    var ys := xs[1..];
    assert LinkOk(s, xs, 0);
    forall i | 0 <= i < |ys| ensures LinkOk(s, ys, i) {
      assert LinkOk(s, xs, i + 1);
    }
  }

  lemma CommitStep(s: State, step: Step)
    requires Inv(s) && Enabled(s, step) && step.Commit?
    ensures Inv(Do(s, step))
  {
    hide Completed, Chain, FinishOk, BatchOk, Reversed, Items, InOrder;
    var s', r := Do(s, step), step.r;
    assert OnlyMoves(s, s', r);
    assert WalkOk(s, r) && s.lock == Some(r);
    ChainSame(s, s');
    forall x: nat ensures Unpushed(PhaseOf(s', x)) == Unpushed(PhaseOf(s, x)) && Leads(s', x) == Leads(s, x)
                       && !Inside(PhaseOf(s', x)) {
      assert Inside(PhaseOf(s, x)) ==> x == r;
    }
    forall x: nat ensures WalkOk(s', x) {
      assert !Inside(PhaseOf(s', x));
    }
    CommitOrder(s, s', r);
    CommitBatches(s, s', r);
  }

  lemma CommitOrder(s: State, s': State, r: nat)
    requires InOrder(s) && s.lock == Some(r) && PhaseOf(s, r).Drained? && s'.lock == None
    requires s'.batches == s.batches + [Batch(PhaseOf(s, r).batch, 0)] && s'.pushed == s.pushed && s'.stack == s.stack
    ensures InOrder(s')
  {
    hide Reversed;
    assert s'.batches[..|s.batches|] == s.batches;
    var before, batch, queue := Items(s.batches), PhaseOf(s, r).batch, Reversed(s.stack);
    assert Items(s'.batches) == before + batch;
    assert before + batch + [] + queue == before + batch + queue;
  }

  lemma CommitBatches(s: State, s': State, r: nat)
    requires Inv(s) && PhaseOf(s, r).Drained? && OnlyMoves(s, s', r) && PhaseOf(s', r) == Finishing(|s.batches|)
    requires s'.batches == s.batches + [Batch(PhaseOf(s, r).batch, 0)]
    ensures forall x: nat :: FinishOk(s', x)
    ensures forall b :: 0 <= b < |s'.batches| ==> BatchOk(s', b)
  {
    hide Chain, Pushed, InOrder, Led, Exclusive, Completed;
    assert WalkOk(s, r);
    forall x: nat ensures FinishOk(s', x) {
      assert FinishOk(s, x);
      if x != r && PhaseOf(s, x).Returned? { CompletedGrows(s, s', x); }
    }
    forall b | 0 <= b < |s'.batches| ensures BatchOk(s', b) {
      if b < |s.batches| { assert BatchOk(s, b); }
    }
  }

  lemma CompletedGrows(s: State, s': State, r: nat)
    requires Completed(s, r) && |s.batches| <= |s'.batches|
    requires forall b :: 0 <= b < |s.batches| ==>
               s'.batches[b].items == s.batches[b].items && s.batches[b].done <= s'.batches[b].done
    ensures Completed(s', r)
  {
    var b, i :| 0 <= b < |s.batches| && 0 <= i < s.batches[b].done && IsItem(s.batches, b, i, r);
    assert IsItem(s'.batches, b, i, r);
  }

  lemma {:induction false} ItemsSame(bs: seq<Batch>, bs': seq<Batch>)
    requires |bs| == |bs'| && forall b :: 0 <= b < |bs| ==> bs[b].items == bs'[b].items
    ensures Items(bs) == Items(bs')
  {
    if bs != [] { ItemsSame(bs[..|bs| - 1], bs'[..|bs| - 1]); }
  }

  lemma CompleteStep(s: State, step: Step)
    requires Inv(s) && Enabled(s, step) && step.Complete?
    ensures Inv(Do(s, step))
  {
    hide Completed, Items, Chain;
    var s', r := Do(s, step), step.r;
    assert forall x: nat :: PhaseOf(s', x) == PhaseOf(s, x);
    ChainSame(s, s');
    assert forall x: nat :: Leads(s', x) == Leads(s, x);
    ItemsSame(s.batches, s'.batches);
    assert InFlight(s') == InFlight(s);
    forall x: nat ensures WalkOk(s', x) {
      assert WalkOk(s, x);
    }
    assert FinishOk(s, r);
    forall x: nat ensures FinishOk(s', x) {
      assert FinishOk(s, x);
      if PhaseOf(s, x).Returned? { CompletedGrows(s, s', x); }
    }
    forall b | 0 <= b < |s'.batches| ensures BatchOk(s', b) {
      assert BatchOk(s, b);
    }
  }

  lemma ReturnStep(s: State, step: Step)
    requires Inv(s) && Enabled(s, step) && (step.LeaderReturns? || step.FollowerReturns?)
    ensures Inv(Do(s, step))
  {
    hide Items, Chain;
    var s', r := Do(s, step), step.r;
    assert OnlyMoves(s, s', r);
    ChainSame(s, s');
    SameSides(s, s', r);
    assert s.lock != Some(r);
    assert InFlight(s') == InFlight(s);
    forall x: nat ensures WalkOk(s', x) {
      assert WalkOk(s, x);
    }
    assert FinishOk(s, r);
    assert Completed(s, r) by {
      if step.LeaderReturns? {
        var b := PhaseOf(s, r).b;
        assert BatchOk(s, b) && IsItem(s.batches, b, 0, r);
      }
    }
    ReturnBatches(s, s', r);
  }

  lemma ReturnBatches(s: State, s': State, r: nat)
    requires Inv(s) && s'.batches == s.batches && OnlyMoves(s, s', r) && PhaseOf(s', r).Returned? && Completed(s, r)
    requires PhaseOf(s, r).Waiting? || (PhaseOf(s, r).Finishing? && PhaseOf(s, r).b < |s.batches|
               && s.batches[PhaseOf(s, r).b].done == |s.batches[PhaseOf(s, r).b].items|)
    ensures forall x: nat :: FinishOk(s', x)
    ensures forall b :: 0 <= b < |s'.batches| ==> BatchOk(s', b)
  {
    hide Chain, Pushed, InOrder, Led, Exclusive, Completed, WalkOk;
    forall x: nat ensures FinishOk(s', x) {
      assert FinishOk(s, x);
      if x == r || PhaseOf(s, x).Returned? { CompletedKept(s, s', x); }
    }
    forall b | 0 <= b < |s'.batches| ensures BatchOk(s', b) {
      assert BatchOk(s, b);
    }
  }

  lemma InvStep(s: State, step: Step)
    requires Inv(s) && Enabled(s, step)
    ensures Inv(Do(s, step))
  {
    hide Inv, Enabled, Do;
    match step
    case Load(_) => LinkStep(s, step);
    case SwapFails(_) => LinkStep(s, step);
    case SwapWins(_) => SwapStep(s, step);
    case Acquire(_) => AcquireStep(s, step);
    case Exchange(_) => ExchangeStep(s, step);
    case Walk(_) => WalkStep(s, step);
    case Reverse(_) => WalkStep(s, step);
    case Commit(_) => CommitStep(s, step);
    case Complete(_) => CompleteStep(s, step);
    case LeaderReturns(_) => ReturnStep(s, step);
    case FollowerReturns(_) => ReturnStep(s, step);
  }

  // -------------------------------------------------------------------- runs

  /** Any interleaving of any number of writers: `steps[i]` leads from `run[i]` to the next state. */
  ghost predicate IsRun(run: seq<State>, steps: seq<Step>) {
    && |run| == |steps| + 1 && Initial(run[0])
    && forall i :: 0 <= i < |steps| ==> Stepped(run[i], steps[i], run[i + 1])
  }

  ghost predicate Stepped(s: State, step: Step, s': State) {
    Enabled(s, step) && s' == Do(s, step)
  }

  lemma RunStep(run: seq<State>, steps: seq<Step>, n: nat)
    requires IsRun(run, steps) && n < |steps|
    ensures Stepped(run[n], steps[n], run[n + 1])
  {
    hide Stepped;
  }

  lemma {:induction false} RunInv(run: seq<State>, steps: seq<Step>, n: nat)
    requires IsRun(run, steps) && n < |run|
    ensures Inv(run[n])
  {
    hide Inv, Enabled, Do;
    if n == 0 {
      InitialInv(run[0]);
    } else {
      RunInv(run, steps, n - 1);
      RunStep(run, steps, n - 1);
      InvStep(run[n - 1], steps[n - 1]);
    }
  }

  /** The requests whose swaps succeeded, in that order. */
  function Swapped(steps: seq<Step>): seq<nat> {
    if steps == [] then []
    else Swapped(steps[..|steps| - 1]) + if steps[|steps| - 1].SwapWins? then [steps[|steps| - 1].r] else []
  }

  lemma {:induction false} PushedAreSwapped(run: seq<State>, steps: seq<Step>, n: nat)
    requires IsRun(run, steps) && n < |run|
    ensures run[n].pushed == Swapped(steps[..n])
  {
    hide Enabled, Older;
    if n == 0 {
      assert steps[..0] == [];
    } else {
      PushedAreSwapped(run, steps, n - 1);
      RunStep(run, steps, n - 1);
      assert steps[..n][..n - 1] == steps[..n - 1];
    }
  }

  lemma InitialInv(s: State)
    requires Initial(s)
    ensures Inv(s)
  {
  }

  /** At most one thread is between winning the empty queue and draining it, and there is one
      whenever the queue is not empty. */
  lemma OneLeader(run: seq<State>, steps: seq<Step>, n: nat, r: nat, r': nat)
    requires IsRun(run, steps) && n < |run|
    ensures Leads(run[n], r) && Leads(run[n], r') ==> r == r'
    ensures run[n].head.Some? <==> exists x: nat :: Leads(run[n], x)
  {
    hide IsRun, InOrder, Pushed, Exclusive, WalkOk, FinishOk, BatchOk;
    RunInv(run, steps, n);
    var s := run[n];
    assert Leads(s, r) <==> s.stack != [] && r == s.stack[|s.stack| - 1];
    if s.head.Some? { assert Leads(s, s.stack[|s.stack| - 1]); }
  }

  /** Committed batches, then the batch under way, then the queue from oldest to newest: push order,
      with every request in it once. */
  lemma PushOrder(run: seq<State>, steps: seq<Step>, n: nat)
    requires IsRun(run, steps) && n < |run|
    ensures Swapped(steps[..n]) == run[n].pushed == Items(run[n].batches) + InFlight(run[n]) + Reversed(run[n].stack)
    ensures Distinct(Swapped(steps[..n]))
  {
    hide IsRun, Items, InFlight, Led, Exclusive, WalkOk, FinishOk, BatchOk;
    RunInv(run, steps, n);
    PushedAreSwapped(run, steps, n);
  }

  /** The position of item `i` of batch `b` in commit order. */
  ghost function Start(bs: seq<Batch>, b: nat): nat
    requires b <= |bs|
  {
    if b == 0 then 0 else Start(bs, b - 1) + |bs[b - 1].items|
  }

  lemma {:induction false} ItemAt(bs: seq<Batch>, b: nat, i: nat)
    requires b < |bs| && i < |bs[b].items|
    ensures Start(bs, b) + i < |Items(bs)| && Items(bs)[Start(bs, b) + i] == bs[b].items[i]
  {
    var n := |bs| - 1;
    ItemsLength(bs[..n]);
    StartPrefix(bs, n, n);
    if b < n {
      ItemAt(bs[..n], b, i);
      StartPrefix(bs, n, b);
    }
  }

  lemma {:induction false} StartPrefix(bs: seq<Batch>, n: nat, b: nat)
    requires b <= n <= |bs|
    ensures Start(bs[..n], b) == Start(bs, b)
  {
    if b > 0 { StartPrefix(bs, n, b - 1); }
  }

  lemma {:induction false} ItemsLength(bs: seq<Batch>)
    ensures |Items(bs)| == Start(bs, |bs|)
  {
    if bs != [] {
      ItemsLength(bs[..|bs| - 1]);
      StartPrefix(bs, |bs| - 1, |bs| - 1);
    }
  }

  lemma {:induction false} StartMonotone(bs: seq<Batch>, b: nat, b': nat)
    requires b < b' <= |bs|
    ensures Start(bs, b) + |bs[b].items| <= Start(bs, b')
  {
    if b < b' - 1 { StartMonotone(bs, b, b' - 1); }
  }

  lemma {:induction false} ItemFound(bs: seq<Batch>, r: nat) returns (b: nat, i: nat)
    requires r in Items(bs)
    ensures IsItem(bs, b, i, r)
  {
    var n := |bs| - 1;
    if r in bs[n].items {
      b := n;
      i :| 0 <= i < |bs[n].items| && bs[n].items[i] == r;
    } else {
      b, i := ItemFound(bs[..n], r);
    }
  }

  /** No request is in two batches or twice in one, so none is marked completed twice. */
  lemma CompletedOnce(run: seq<State>, steps: seq<Step>, n: nat, r: nat, b: nat, i: nat, b': nat, i': nat)
    requires IsRun(run, steps) && n < |run| && IsItem(run[n].batches, b, i, r) && IsItem(run[n].batches, b', i', r)
    ensures b == b' && i == i'
  {
    hide IsRun, Items, InFlight, Reversed, Led, Exclusive, WalkOk, FinishOk, BatchOk;
    PushOrder(run, steps, n);
    var bs := run[n].batches;
    ItemAt(bs, b, i);
    ItemAt(bs, b', i');
    if b < b' { StartMonotone(bs, b, b'); }
    if b' < b { StartMonotone(bs, b', b); }
    assert forall k :: 0 <= k < |Items(bs)| ==> run[n].pushed[k] == Items(bs)[k];
  }

  /** A write that has returned was committed and marked completed. */
  lemma ReturnedWasCompleted(run: seq<State>, steps: seq<Step>, n: nat, r: nat)
    requires IsRun(run, steps) && n < |run| && PhaseOf(run[n], r).Returned?
    ensures Completed(run[n], r) && r in Items(run[n].batches)
  {
    hide IsRun, Items, InOrder, Pushed, Led, Exclusive, WalkOk;
    RunInv(run, steps, n);
    var s := run[n];
    assert FinishOk(s, r);
    var b: nat, i: nat :| b < |s.batches| && i < s.batches[b].done && IsItem(s.batches, b, i, r);
    ItemAt(s.batches, b, i);
  }

  ghost predicate AtRest(s: State) {
    forall r: nat :: Unpushed(PhaseOf(s, r)) || PhaseOf(s, r).Returned?
  }

  /** When every writer that pushed has returned, every push has been committed, in push order, and completed. */
  lemma NoneStranded(run: seq<State>, steps: seq<Step>, n: nat, r: nat)
    requires IsRun(run, steps) && n < |run| && AtRest(run[n])
    ensures Swapped(steps[..n]) == Items(run[n].batches)
    ensures r in Swapped(steps[..n]) ==> Completed(run[n], r)
  {
    hide IsRun, Items, Completed;
    RunInv(run, steps, n);
    PushedAreSwapped(run, steps, n);
    var s := run[n];
    assert s.stack != [] ==> Leads(s, s.stack[|s.stack| - 1]);
    assert s.lock.Some? ==> Inside(PhaseOf(s, s.lock.value));
    assert s.pushed == Items(s.batches);
    if r in s.pushed { CompletedAtRest(s, r); }
  }

  lemma CompletedAtRest(s: State, r: nat)
    requires AtRest(s) && r in Items(s.batches) && forall b :: 0 <= b < |s.batches| ==> BatchOk(s, b)
    ensures Completed(s, r)
  {
    hide Items;
    var b, i := ItemFound(s.batches, r);
    assert BatchOk(s, b);
  }
}
