/** The concurrent skip list: one writer linking bottom-up, any number of lock-free readers. */
module SkipList {
  import opened Keys
  import Lsm

  const MAX_HEIGHT: nat := 12
  const HEAD: nat := 0

  /** A node by its address; `next[l]` is its link at level `l`. */
  datatype Node = Node(key: Key, value: Pointer, next: seq<Option<nat>>)

  type Nodes = map<nat, Node>

  /** The nodes, the published height, and for each level the chain its links spell out from the head. */
  datatype List = List(nodes: Nodes, maxHeight: nat, chains: seq<seq<nat>>)

  // -------------------------------------------------------------- structure

  ghost function Successor(chain: seq<nat>, i: int): Option<nat>
    requires 0 <= i < |chain|
  {
    if i + 1 < |chain| then Some(chain[i + 1]) else None
  }

  ghost predicate Linked(nodes: Nodes, chain: seq<nat>, level: nat) {
    && chain != [] && chain[0] == HEAD
    && forall i :: 0 <= i < |chain| ==>
         && chain[i] in nodes && level < |nodes[chain[i]].next|
         && nodes[chain[i]].next[level] == Successor(chain, i)
  }

  /** Keys strictly ascend after the head. */
  ghost predicate Ascends(nodes: Nodes, chain: seq<nat>) {
    && chain != [] && chain[0] == HEAD
    && (forall i :: 0 <= i < |chain| ==> chain[i] in nodes)
    && (forall i :: 0 < i < |chain| ==> chain[i] != HEAD)
    && forall i, j :: 0 < i < j < |chain| ==> Below(nodes[chain[i]].key, nodes[chain[j]].key)
  }

  ghost predicate Within(a: seq<nat>, b: seq<nat>) {
    forall x :: x in a ==> x in b
  }

  ghost predicate LevelOk(list: List, level: nat)
    requires level < |list.chains|
  {
    && Linked(list.nodes, list.chains[level], level) && Ascends(list.nodes, list.chains[level])
    && (level > 0 ==> Within(list.chains[level], list.chains[level - 1]))
    && (level >= list.maxHeight ==> list.chains[level] == [HEAD])
  }

  /** Every level is strictly sorted and a sub-list of the level below. */
  ghost predicate ListOk(list: List) {
    && HEAD in list.nodes && |list.nodes[HEAD].next| == MAX_HEIGHT
    && |list.chains| == MAX_HEIGHT && 1 <= list.maxHeight <= MAX_HEIGHT
    && forall level :: 0 <= level < MAX_HEIGHT ==> LevelOk(list, level)
  }

  ghost predicate KeyAt(nodes: Nodes, chain: seq<nat>, k: Key, i: int) {
    0 < i < |chain| && chain[i] in nodes && nodes[chain[i]].key == k
  }

  /** The map a list stands for, read off its bottom chain. */
  ghost function Lookup(nodes: Nodes, chain: seq<nat>, k: Key): Option<Pointer> {
    if exists i :: KeyAt(nodes, chain, k, i)
    then var i :| KeyAt(nodes, chain, k, i); Some(nodes[chain[i]].value)
    else None
  }

  ghost function Content(list: List, k: Key): Option<Pointer>
    requires |list.chains| == MAX_HEIGHT
  {
    Lookup(list.nodes, list.chains[0], k)
  }

  lemma LookupAt(nodes: Nodes, chain: seq<nat>, k: Key, i: int)
    requires Ascends(nodes, chain) && KeyAt(nodes, chain, k, i)
    ensures Lookup(nodes, chain, k) == Some(nodes[chain[i]].value)
  {
    var j :| KeyAt(nodes, chain, k, j);
    BelowIrreflexive(k);
  }

  lemma LookupMember(nodes: Nodes, chain: seq<nat>, k: Key, x: nat)
    requires Ascends(nodes, chain) && x in chain && x != HEAD && x in nodes && nodes[x].key == k
    ensures Lookup(nodes, chain, k) == Some(nodes[x].value)
  {
    var i :| 0 <= i < |chain| && chain[i] == x;
    LookupAt(nodes, chain, k, i);
  }

  /** The node that answers for `k`, or none. */
  lemma LookupHolder(nodes: Nodes, chain: seq<nat>, k: Key) returns (x: nat)
    requires Ascends(nodes, chain)
    ensures Lookup(nodes, chain, k).Some? ==> x in chain && x != HEAD && x in nodes && nodes[x].key == k
    ensures Lookup(nodes, chain, k).None? ==> forall y :: y in chain && y != HEAD && y in nodes ==> nodes[y].key != k
  {
    x := HEAD;
    if i :| KeyAt(nodes, chain, k, i) {
      LookupAt(nodes, chain, k, i);
      x := chain[i];
    } else {
      forall y | y in chain && y != HEAD && y in nodes ensures nodes[y].key != k {
        var i :| 0 <= i < |chain| && chain[i] == y;
        assert !KeyAt(nodes, chain, k, i);
      }
    }
  }

  /** Two lists agree on a key when the same node, or none, carries it in both. */
  lemma SameHolder(a: Nodes, achain: seq<nat>, b: Nodes, bchain: seq<nat>, k: Key)
    requires Ascends(a, achain) && Ascends(b, bchain)
    requires forall x :: (x in achain && x in a && a[x].key == k) <==> (x in bchain && x in b && b[x].key == k)
    requires forall x :: x in achain && x in a && a[x].key == k && x in b ==> a[x].value == b[x].value
    ensures Lookup(a, achain, k) == Lookup(b, bchain, k)
  {
    var x := LookupHolder(a, achain, k);
    if Lookup(a, achain, k).Some? {
      LookupMember(a, achain, k, x);
      LookupMember(b, bchain, k, x);
    } else {
      var y := LookupHolder(b, bchain, k);
    }
  }

  // ----------------------------------------------------- positions in a chain

  ghost predicate Precedes(nodes: Nodes, x: nat, k: Key) {
    x in nodes && (x == HEAD || Below(nodes[x].key, k))
  }

  /** `x` is the last node of the level before `k`, and `k` itself is not on the level. */
  ghost predicate IsPrev(list: List, level: nat, x: nat, k: Key)
    requires level < |list.chains|
  {
    var chain := list.chains[level];
    exists j :: PrevAt(list.nodes, chain, x, k, j)
  }

  ghost predicate PrevAt(nodes: Nodes, chain: seq<nat>, x: nat, k: Key, j: int) {
    && 0 <= j < |chain| && chain[j] == x && Precedes(nodes, x, k)
    && (j + 1 < |chain| ==> chain[j + 1] in nodes && Below(k, nodes[chain[j + 1]].key))
  }

  ghost predicate IsCandidate(nodes: Nodes, chain: seq<nat>, k: Key, x: nat) {
    x in chain && x != HEAD && x in nodes && AtMost(k, nodes[x].key)
  }

  /** `found` is the least node of the chain with a key of at least `k`. */
  ghost predicate IsLeast(nodes: Nodes, chain: seq<nat>, k: Key, found: Option<nat>) {
    && (found.Some? ==> IsCandidate(nodes, chain, k, found.value))
    && forall x :: IsCandidate(nodes, chain, k, x) ==>
         found.Some? && found.value in nodes && AtMost(nodes[found.value].key, nodes[x].key)
  }

  /** Standing on `x` before `k`, with the next node not before `k`, one has found the least node >= k. */
  lemma StopIsLeast(nodes: Nodes, chain: seq<nat>, level: nat, k: Key, x: nat)
    requires Linked(nodes, chain, level) && Ascends(nodes, chain) && x in chain && Precedes(nodes, x, k)
    requires nodes[x].next[level].Some? ==>
               nodes[x].next[level].value in nodes && !Below(nodes[nodes[x].next[level].value].key, k)
    ensures IsLeast(nodes, chain, k, nodes[x].next[level])
  {
    var j :| 0 <= j < |chain| && chain[j] == x;
    var found := nodes[x].next[level];
    assert found == Successor(chain, j);
    forall y | IsCandidate(nodes, chain, k, y)
      ensures found.Some? && AtMost(nodes[found.value].key, nodes[y].key)
    {
      var i :| 0 <= i < |chain| && chain[i] == y;
      BelowIrreflexive(nodes[y].key);
      if i <= j {
        if i < j { BelowTransitive(nodes[y].key, nodes[x].key, k); }
        assert false;
      }
      if i > j + 1 { BelowAsymmetric(nodes[chain[j + 1]].key, nodes[y].key); }
    }
  }

  /** If the least node >= k does not carry k, then k is absent. */
  lemma LeastDecides(nodes: Nodes, chain: seq<nat>, k: Key, found: Option<nat>)
    requires Ascends(nodes, chain) && IsLeast(nodes, chain, k, found)
    ensures found.Some? && nodes[found.value].key == k ==> Lookup(nodes, chain, k) == Some(nodes[found.value].value)
    ensures !(found.Some? && nodes[found.value].key == k) ==> Lookup(nodes, chain, k).None?
  {
    BelowIrreflexive(k);
    if found.Some? && nodes[found.value].key == k {
      var i :| 0 <= i < |chain| && chain[i] == found.value;
      LookupAt(nodes, chain, k, i);
    } else {
      forall i ensures !KeyAt(nodes, chain, k, i) {
        if 0 < i < |chain| && nodes[chain[i]].key == k {
          assert IsCandidate(nodes, chain, k, chain[i]);
          BelowTotal(nodes[found.value].key, k);
        }
      }
    }
  }

  // ------------------------------------------------------------ single stores

  function SetNext(nodes: Nodes, x: nat, level: nat, y: Option<nat>): Nodes
    requires x in nodes && level < |nodes[x].next|
  {
    nodes[x := nodes[x].(next := nodes[x].next[level := y])]
  }

  ghost function InsertAfter(chain: seq<nat>, x: nat, id: nat): (r: seq<nat>)
    requires x in chain
    ensures forall y :: y in r <==> y in chain || y == id
  {
    var j :| 0 <= j < |chain| && chain[j] == x;
    assert chain == chain[..j + 1] + chain[j + 1..];
    chain[..j + 1] + [id] + chain[j + 1..]
  }

  /** `prev->next[level] = id`, the store that publishes a node on a level. */
  ghost function Publish(list: List, level: nat, x: nat, id: nat): List
    requires level < |list.chains| && x in list.chains[level]
    requires x in list.nodes && level < |list.nodes[x].next|
  {
    list.(nodes := SetNext(list.nodes, x, level, Some(id)),
          chains := list.chains[level := InsertAfter(list.chains[level], x, id)])
  }

  /** A chain only depends on the keys and links of its own nodes. */
  lemma SameShape(a: Nodes, b: Nodes, chain: seq<nat>, level: nat)
    requires Linked(a, chain, level) && Ascends(a, chain)
    requires forall x :: x in chain && x in a ==>
               x in b && b[x].key == a[x].key && level < |b[x].next| && b[x].next[level] == a[x].next[level]
    ensures Linked(b, chain, level) && Ascends(b, chain)
  {
    forall i | 0 <= i < |chain|
      ensures chain[i] in b && b[chain[i]].key == a[chain[i]].key
      ensures level < |b[chain[i]].next| && b[chain[i]].next[level] == a[chain[i]].next[level]
    {
      assert chain[i] in chain;
    }
  }

  /** A node not on a level may have its link there rewritten: no chain is affected. */
  lemma CopyKeepsList(list: List, id: nat, level: nat, y: Option<nat>)
    requires ListOk(list) && level < MAX_HEIGHT && id in list.nodes && id != HEAD
    requires level < |list.nodes[id].next| && id !in list.chains[level]
    ensures ListOk(list.(nodes := SetNext(list.nodes, id, level, y)))
    ensures forall k :: Content(list.(nodes := SetNext(list.nodes, id, level, y)), k) == Content(list, k)
  {
    var list' := list.(nodes := SetNext(list.nodes, id, level, y));
    hide Linked, Ascends, Lookup;
    forall l | 0 <= l < MAX_HEIGHT ensures LevelOk(list', l) {
      assert LevelOk(list, l);
      ChainLinks(list.nodes, list.chains[l], l);
      SameShape(list.nodes, list'.nodes, list.chains[l], l);
    }
    forall k ensures Content(list', k) == Content(list, k) {
      assert LevelOk(list, 0);
      ChainLinks(list.nodes, list.chains[0], 0);
      SameLookup(list.nodes, list'.nodes, list.chains[0], k);
    }
  }

  lemma ChainLinks(nodes: Nodes, chain: seq<nat>, level: nat)
    requires Linked(nodes, chain, level)
    ensures forall x :: x in chain ==> x in nodes && level < |nodes[x].next|
  {
  }

  lemma SameLookup(a: Nodes, b: Nodes, chain: seq<nat>, k: Key)
    requires Ascends(a, chain)
    requires forall x :: x in chain ==> x in b && b[x].key == a[x].key && b[x].value == a[x].value
    ensures Lookup(b, chain, k) == Lookup(a, chain, k)
  {
    forall i ensures KeyAt(b, chain, k, i) <==> KeyAt(a, chain, k, i) {
      if 0 < i < |chain| { assert chain[i] in chain; }
    }
    if i :| KeyAt(a, chain, k, i) {
      LookupAt(a, chain, k, i);
      assert Ascends(b, chain);
      LookupAt(b, chain, k, i);
    }
  }

  lemma AllocateKeepsList(list: List, id: nat, node: Node, height: nat)
    requires ListOk(list) && id !in list.nodes && height <= MAX_HEIGHT
    ensures var list' := list.(nodes := list.nodes[id := node],
                               maxHeight := if height > list.maxHeight then height else list.maxHeight);
            && ListOk(list')
            && (forall l :: 0 <= l < MAX_HEIGHT ==> id !in list.chains[l])
            && forall k :: Content(list', k) == Content(list, k)
  {
    var list' := list.(nodes := list.nodes[id := node],
                       maxHeight := if height > list.maxHeight then height else list.maxHeight);
    forall l | 0 <= l < MAX_HEIGHT ensures LevelOk(list', l) && id !in list.chains[l] {
      assert LevelOk(list, l);
    }
    forall k ensures Content(list', k) == Content(list, k) {
      assert LevelOk(list, 0);
      SameLookup(list.nodes, list'.nodes, list.chains[0], k);
    }
  }

  lemma OverwriteMeans(list: List, id: nat, p: Pointer)
    requires ListOk(list) && id in list.chains[0] && id != HEAD && id in list.nodes
    ensures var list' := list.(nodes := list.nodes[id := list.nodes[id].(value := p)]);
            && ListOk(list')
            && forall k :: Content(list', k) == if k == list.nodes[id].key then Some(p) else Content(list, k)
  {
    var list' := list.(nodes := list.nodes[id := list.nodes[id].(value := p)]);
    hide Ascends, Linked, Lookup;
    forall l | 0 <= l < MAX_HEIGHT ensures LevelOk(list', l) {
      assert LevelOk(list, l);
      ChainLinks(list.nodes, list.chains[l], l);
      SameShape(list.nodes, list'.nodes, list.chains[l], l);
    }
    assert LevelOk(list, 0) && LevelOk(list', 0);
    forall k ensures Content(list', k) == if k == list.nodes[id].key then Some(p) else Content(list, k) {
      if k == list.nodes[id].key {
        LookupMember(list'.nodes, list.chains[0], k, id);
      } else {
        SameHolder(list.nodes, list.chains[0], list'.nodes, list.chains[0], k);
      }
    }
  }

  // ----------------------------------------------------------------- publish

  lemma Unique(nodes: Nodes, chain: seq<nat>, i: int, j: int)
    requires Ascends(nodes, chain) && 0 <= i < |chain| && 0 <= j < |chain| && chain[i] == chain[j]
    ensures i == j
  {
    if 0 < i < j { BelowIrreflexive(nodes[chain[i]].key); }
    if 0 < j < i { BelowIrreflexive(nodes[chain[i]].key); }
  }

  lemma InsertedAfter(nodes: Nodes, chain: seq<nat>, x: nat, id: nat, j: int)
    requires Ascends(nodes, chain) && 0 <= j < |chain| && chain[j] == x
    ensures InsertAfter(chain, x, id) == chain[..j + 1] + [id] + chain[j + 1..]
  {
    hide Ascends;
    var r := InsertAfter(chain, x, id);
    var j' :| 0 <= j' < |chain| && chain[j'] == x && r == chain[..j' + 1] + [id] + chain[j' + 1..];
    Unique(nodes, chain, j, j');
  }

  /** Linking a node between its neighbours keeps the level linked and sorted. */
  lemma InsertKeepsLevel(nodes: Nodes, chain: seq<nat>, level: nat, x: nat, id: nat)
    requires Linked(nodes, chain, level) && Ascends(nodes, chain)
    requires id in nodes && id !in chain && id != HEAD && level < |nodes[id].next|
    requires x in chain && x in nodes && nodes[id].next[level] == nodes[x].next[level]
    requires exists j :: PrevAt(nodes, chain, x, nodes[id].key, j)
    ensures Linked(SetNext(nodes, x, level, Some(id)), InsertAfter(chain, x, id), level)
    ensures Ascends(SetNext(nodes, x, level, Some(id)), InsertAfter(chain, x, id))
  {
    hide Linked, Ascends, SetNext, InsertAfter, Precedes, Below;
    var j :| PrevAt(nodes, chain, x, nodes[id].key, j);
    var r := InsertAfter(chain, x, id);
    ChainLinks(nodes, chain, level);
    InsertedAfter(nodes, chain, x, id, j);
    InsertLinks(nodes, chain, level, x, id, j, r);
    InsertSorts(nodes, chain, level, x, id, j, r);
  }

  lemma InsertLinks(nodes: Nodes, chain: seq<nat>, level: nat, x: nat, id: nat, j: int, r: seq<nat>)
    requires Linked(nodes, chain, level) && Ascends(nodes, chain)
    requires id in nodes && id !in chain && level < |nodes[id].next|
    requires 0 <= j < |chain| && chain[j] == x && nodes[id].next[level] == nodes[x].next[level]
    requires r == chain[..j + 1] + [id] + chain[j + 1..]
    ensures Linked(SetNext(nodes, x, level, Some(id)), r, level)
  {
    var nodes' := SetNext(nodes, x, level, Some(id));
    forall i | 0 <= i < |r|
      ensures r[i] in nodes' && level < |nodes'[r[i]].next| && nodes'[r[i]].next[level] == Successor(r, i)
    {
      if i <= j {
        assert r[i] == chain[i];
        if i < j && chain[i] == x { Unique(nodes, chain, i, j); }
      } else if i > j + 1 {
        assert r[i] == chain[i - 1];
        if chain[i - 1] == x { Unique(nodes, chain, i - 1, j); }
      } else {
        assert nodes'[id].next[level] == Successor(chain, j) == Successor(r, i);
      }
    }
  }

  lemma InsertSorts(nodes: Nodes, chain: seq<nat>, level: nat, x: nat, id: nat, j: int, r: seq<nat>)
    requires Ascends(nodes, chain) && id in nodes && id != HEAD
    requires PrevAt(nodes, chain, x, nodes[id].key, j) && level < |nodes[x].next|
    requires r == chain[..j + 1] + [id] + chain[j + 1..]
    ensures Ascends(SetNext(nodes, x, level, Some(id)), r)
  {
    forall a, b | 0 < a < b < |r| ensures r[a] in nodes && r[b] in nodes && Below(nodes[r[a]].key, nodes[r[b]].key) {
      InsertedPair(nodes, chain, x, id, j, r, a, b);
    }
  }

  lemma InsertedPair(nodes: Nodes, chain: seq<nat>, x: nat, id: nat, j: int, r: seq<nat>, a: int, b: int)
    requires Ascends(nodes, chain) && id in nodes && PrevAt(nodes, chain, x, nodes[id].key, j)
    requires r == chain[..j + 1] + [id] + chain[j + 1..] && 0 < a < b < |r|
    ensures r[a] in nodes && r[b] in nodes && Below(nodes[r[a]].key, nodes[r[b]].key)
  {
    var k := nodes[id].key;
    if b == j + 1 {
      assert r[a] == chain[a] && r[b] == id;
      if a < j { BelowTransitive(nodes[chain[a]].key, nodes[x].key, k); }
    } else if a == j + 1 {
      assert r[a] == id && r[b] == chain[b - 1];
      if b > j + 2 { BelowTransitive(k, nodes[chain[j + 1]].key, nodes[chain[b - 1]].key); }
    } else {
      var a', b' := if a <= j then a else a - 1, if b <= j then b else b - 1;
      assert r[a] == chain[a'] && r[b] == chain[b'];
    }
  }

  /** One publishing store keeps every level strictly sorted and a sub-list of the one below. */
  lemma PublishKeepsList(list: List, level: nat, x: nat, id: nat)
    requires ListOk(list) && level < list.maxHeight && id in list.nodes && id != HEAD
    requires level < |list.nodes[id].next| && id !in list.chains[level]
    requires level > 0 ==> id in list.chains[level - 1]
    requires x in list.chains[level] && x in list.nodes && level < |list.nodes[x].next|
    requires list.nodes[id].next[level] == list.nodes[x].next[level]
    requires IsPrev(list, level, x, list.nodes[id].key)
    ensures ListOk(Publish(list, level, x, id))
  {
    var list' := Publish(list, level, x, id);
    HeadStays(list.nodes, x, level, Some(id));
    forall l | 0 <= l < MAX_HEIGHT ensures LevelOk(list', l) {
      PublishLevel(list, level, x, id, l);
    }
  }

  lemma PublishLevel(list: List, level: nat, x: nat, id: nat, l: nat)
    requires ListOk(list) && level < list.maxHeight && id in list.nodes && id != HEAD && l < MAX_HEIGHT
    requires level < |list.nodes[id].next| && id !in list.chains[level]
    requires level > 0 ==> id in list.chains[level - 1]
    requires x in list.chains[level] && x in list.nodes && level < |list.nodes[x].next|
    requires list.nodes[id].next[level] == list.nodes[x].next[level]
    requires IsPrev(list, level, x, list.nodes[id].key)
    ensures LevelOk(Publish(list, level, x, id), l)
  {
    hide Linked, Ascends, InsertAfter, SetNext;
    assert LevelOk(list, l);
    if l == level {
      InsertKeepsLevel(list.nodes, list.chains[level], level, x, id);
    } else {
      OtherLevel(list.nodes, list.chains[l], l, x, level, Some(id));
    }
  }

  lemma HeadStays(nodes: Nodes, x: nat, level: nat, y: Option<nat>)
    requires HEAD in nodes && x in nodes && level < |nodes[x].next|
    ensures HEAD in SetNext(nodes, x, level, y)
    ensures |SetNext(nodes, x, level, y)[HEAD].next| == |nodes[HEAD].next|
  {
  }

  lemma OtherLevel(nodes: Nodes, chain: seq<nat>, l: nat, x: nat, level: nat, y: Option<nat>)
    requires Linked(nodes, chain, l) && Ascends(nodes, chain) && l != level
    requires x in nodes && level < |nodes[x].next|
    ensures Linked(SetNext(nodes, x, level, y), chain, l) && Ascends(SetNext(nodes, x, level, y), chain)
  {
  }

  /** Publishing on the bottom level is the moment the key appears; higher levels change nothing. */
  lemma PublishMeans(list: List, level: nat, x: nat, id: nat, k: Key)
    requires ListOk(list) && level < MAX_HEIGHT && x in list.chains[level]
    requires x in list.nodes && level < |list.nodes[x].next| && id in list.nodes && id != HEAD
    requires ListOk(Publish(list, level, x, id))
    ensures Content(Publish(list, level, x, id), k)
         == if level == 0 && k == list.nodes[id].key then Some(list.nodes[id].value) else Content(list, k)
  {
    var list' := Publish(list, level, x, id);
    assert LevelOk(list, 0) && LevelOk(list', 0);
    hide Ascends, Linked, Lookup, InsertAfter;
    if level == 0 && k == list.nodes[id].key {
      LookupMember(list'.nodes, list'.chains[0], k, id);
    } else {
      SameHolder(list.nodes, list.chains[0], list'.nodes, list'.chains[0], k);
    }
  }

  // -------------------------------------------------------- the writer's plan

  /** What a put holds once its search is done: a last-before node for every level it will link. */
  ghost predicate PrevsOk(list: List, prev: seq<nat>, k: Key, lo: nat, hi: nat) {
    hi <= |prev| && hi <= |list.chains| && forall l :: lo <= l < hi ==> IsPrev(list, l, prev[l], k)
  }

  lemma PrevStays(a: List, b: List, l: nat, x: nat, k: Key)
    requires l < |a.chains| == |b.chains| && a.chains[l] == b.chains[l] && IsPrev(a, l, x, k)
    requires forall y :: y in a.nodes ==> y in b.nodes && b.nodes[y].key == a.nodes[y].key
    ensures IsPrev(b, l, x, k)
  {
    var j :| PrevAt(a.nodes, a.chains[l], x, k, j);
    assert PrevAt(b.nodes, b.chains[l], x, k, j);
  }

  lemma PrevFacts(list: List, l: nat, x: nat, k: Key)
    requires ListOk(list) && l < MAX_HEIGHT && IsPrev(list, l, x, k)
    ensures x in list.chains[l] && x in list.nodes && l < |list.nodes[x].next|
  {
    assert LevelOk(list, l);
    var j :| PrevAt(list.nodes, list.chains[l], x, k, j);
  }

  // ------------------------------------------------------------ the machine

  /** The writer: lock free, or linking node `id` on level `level`, its own link there copied or not. */
  datatype Writer =
    | Unlocked
    | Linking(id: nat, height: nat, prev: seq<nat>, level: nat, copied: bool)

  /** A reader: walking at `x` on `level`, on the node that carries its key, or done.
      `since` and `at` are positions in the history of lists. */
  datatype Reader =
    | Walking(key: Key, x: nat, level: nat, since: nat)
    | OnNode(key: Key, id: nat, since: nat)
    | Returned(key: Key, since: nat, at: nat, result: Option<Pointer>)

  datatype State = State(list: List, writer: Writer, readers: map<nat, Reader>, hist: seq<List>)

  datatype Step =
    | Overwrite(key: Key, id: nat, ptr: Pointer)
    | Begin(key: Key, ptr: Pointer, id: nat, height: nat, prev: seq<nat>)
    | Copy
    | Link
    | Start(tid: nat, key: Key)
    | Load(tid: nat)
    | LoadValue(tid: nat)

  ghost predicate CanLink(list: List, w: Writer) {
    && w.Linking? && w.level < w.height <= |w.prev| && w.height <= MAX_HEIGHT
    && |list.chains| == MAX_HEIGHT && w.id in list.nodes && w.level < |list.nodes[w.id].next|
    && var x := w.prev[w.level];
       x in list.chains[w.level] && x in list.nodes && w.level < |list.nodes[x].next|
  }

  ghost predicate Enabled(s: State, step: Step) {
    match step
    case Overwrite(k, id, _) =>
      && s.writer.Unlocked? && |s.list.chains| == MAX_HEIGHT && id in s.list.chains[0] && id != HEAD
      && id in s.list.nodes && s.list.nodes[id].key == k
    case Begin(k, _, id, height, prev) =>
      && s.writer.Unlocked? && id !in s.list.nodes && 1 <= height <= MAX_HEIGHT
      && |prev| == MAX_HEIGHT && PrevsOk(s.list, prev, k, 0, s.list.maxHeight)
      && (forall l :: s.list.maxHeight <= l < MAX_HEIGHT ==> prev[l] == HEAD)
    case Copy => CanLink(s.list, s.writer) && !s.writer.copied
    case Link => CanLink(s.list, s.writer) && s.writer.copied
    case Start(tid, _) => tid !in s.readers && s.list.maxHeight > 0 && s.hist != []
    case Load(tid) =>
      && tid in s.readers && s.readers[tid].Walking? && s.hist != []
      && s.readers[tid].x in s.list.nodes && s.readers[tid].level < |s.list.nodes[s.readers[tid].x].next|
    case LoadValue(tid) =>
      tid in s.readers && s.readers[tid].OnNode? && s.readers[tid].id in s.list.nodes && s.hist != []
  }

  function Raised(a: nat, b: nat): nat {
    if a > b then a else b
  }

  /** The list and writer after a writer's step; readers change neither. */
  ghost function Write(s: State, step: Step): (List, Writer)
    requires Enabled(s, step) && (step.Overwrite? || step.Begin? || step.Copy? || step.Link?)
  {
    var list, w := s.list, s.writer;
    match step
    case Overwrite(_, id, p) => (list.(nodes := list.nodes[id := list.nodes[id].(value := p)]), Unlocked)
    case Begin(k, p, id, height, prev) =>
      var node := Node(k, p, seq(height, _ => None));
      (list.(nodes := list.nodes[id := node], maxHeight := Raised(height, list.maxHeight)),
       Linking(id, height, prev, 0, false))
    case Copy =>
      (list.(nodes := SetNext(list.nodes, w.id, w.level, list.nodes[w.prev[w.level]].next[w.level])),
       w.(copied := true))
    case Link =>
      (Publish(list, w.level, w.prev[w.level], w.id),
       if w.level + 1 == w.height then Unlocked else w.(level := w.level + 1, copied := false))
  }

  ghost function Read(s: State, step: Step): Reader
    requires Enabled(s, step) && (step.Start? || step.Load? || step.LoadValue?)
  {
    var now := |s.hist| - 1;
    match step
    case Start(_, k) => Walking(k, HEAD, s.list.maxHeight - 1, now)
    case Load(tid) =>
      var r := s.readers[tid];
      var next := s.list.nodes[r.x].next[r.level];
      if next.Some? && next.value in s.list.nodes && Below(s.list.nodes[next.value].key, r.key) then r.(x := next.value)
      else if r.level > 0 then r.(level := r.level - 1)
      else if next.Some? && next.value in s.list.nodes && s.list.nodes[next.value].key == r.key
      then OnNode(r.key, next.value, r.since)
      else Returned(r.key, r.since, now, None)
    case LoadValue(tid) =>
      var r := s.readers[tid];
      Returned(r.key, r.since, now, Some(s.list.nodes[r.id].value))
  }

  ghost function Do(s: State, step: Step): State
    requires Enabled(s, step)
  {
    if step.Overwrite? || step.Begin? || step.Copy? || step.Link? then
      var (list, writer) := Write(s, step);
      s.(list := list, writer := writer, hist := s.hist + [list])
    else
      s.(readers := s.readers[step.tid := Read(s, step)])
  }

  // -------------------------------------------------------------- invariants

  ghost predicate WriterOk(list: List, w: Writer) {
    w.Linking? ==>
      && w.level < w.height <= list.maxHeight && w.height <= |w.prev| && w.height <= MAX_HEIGHT == |list.chains|
      && w.id in list.nodes && w.id != HEAD && |list.nodes[w.id].next| == w.height
      && (forall l :: 0 <= l < MAX_HEIGHT ==> (w.id in list.chains[l] <==> l < w.level))
      && PrevsOk(list, w.prev, list.nodes[w.id].key, w.level, w.height)
      && (w.copied ==> w.prev[w.level] in list.nodes && w.level < |list.nodes[w.prev[w.level]].next|
                       && list.nodes[w.id].next[w.level] == list.nodes[w.prev[w.level]].next[w.level])
  }

  ghost predicate ReaderOk(s: State, r: Reader) {
    && |s.list.chains| == MAX_HEIGHT
    && match r
       case Walking(k, x, level, since) =>
         since < |s.hist| && level < MAX_HEIGHT && x in s.list.chains[level] && Precedes(s.list.nodes, x, k)
       case OnNode(k, id, since) =>
         since < |s.hist| && id in s.list.chains[0] && id != HEAD && id in s.list.nodes && s.list.nodes[id].key == k
       case Returned(k, since, at, result) =>
         since <= at < |s.hist| && |s.hist[at].chains| == MAX_HEIGHT && Content(s.hist[at], k) == result
  }

  ghost predicate Inv(s: State) {
    && ListOk(s.list) && WriterOk(s.list, s.writer)
    && s.hist != [] && s.hist[|s.hist| - 1] == s.list
    && forall tid :: tid in s.readers ==> ReaderOk(s, s.readers[tid])
  }

  // ------------------------------------------------------------ writer steps

  lemma BeginOk(s: State, step: Step)
    requires Inv(s) && step.Begin? && Enabled(s, step)
    ensures ListOk(Write(s, step).0) && WriterOk(Write(s, step).0, Write(s, step).1)
    ensures forall k :: Content(Write(s, step).0, k) == Content(s.list, k)
  {
    var list := s.list;
    var node := Node(step.key, step.ptr, seq(step.height, _ => None));
    AllocateKeepsList(list, step.id, node, step.height);
    var list' := Write(s, step).0;
    forall l | 0 <= l < step.height ensures IsPrev(list', l, step.prev[l], step.key) {
      assert LevelOk(list, l);
      if l >= list.maxHeight {
        assert PrevAt(list.nodes, list.chains[l], HEAD, step.key, 0);
      }
      PrevStays(list, list', l, step.prev[l], step.key);
    }
  }

  lemma CopyOk(s: State)
    requires Inv(s) && Enabled(s, Copy)
    ensures ListOk(Write(s, Copy).0) && WriterOk(Write(s, Copy).0, Write(s, Copy).1)
    ensures forall k :: Content(Write(s, Copy).0, k) == Content(s.list, k)
  {
    hide ListOk, Content, IsPrev;
    var list, w := s.list, s.writer;
    var x := w.prev[w.level];
    CopyKeepsList(list, w.id, w.level, list.nodes[x].next[w.level]);
    var list' := Write(s, Copy).0;
    forall l | w.level <= l < w.height ensures IsPrev(list', l, w.prev[l], list.nodes[w.id].key) {
      PrevStays(list, list', l, w.prev[l], list.nodes[w.id].key);
    }
  }

  lemma LinkOk(s: State)
    requires Inv(s) && Enabled(s, Link)
    ensures ListOk(Write(s, Link).0) && WriterOk(Write(s, Link).0, Write(s, Link).1)
  {
    hide IsPrev, InsertAfter;
    var list, w := s.list, s.writer;
    PublishKeepsList(list, w.level, w.prev[w.level], w.id);
    hide ListOk;
    var list' := Write(s, Link).0;
    assert forall y :: y in list'.chains[w.level] <==> y in list.chains[w.level] || y == w.id;
    forall l | w.level < l < w.height ensures IsPrev(list', l, w.prev[l], list.nodes[w.id].key) {
      PrevStays(list, list', l, w.prev[l], list.nodes[w.id].key);
    }
  }

  /** A put, step by step, is one map update: at the value store, or at the bottom-level link. */
  lemma WriteRefines(s: State, step: Step, k: Key)
    requires Inv(s) && Enabled(s, step) && (step.Overwrite? || step.Begin? || step.Copy? || step.Link?)
    ensures var list' := Write(s, step).0;
            && ListOk(list') && WriterOk(list', Write(s, step).1)
            && Content(list', k)
                 == if step.Overwrite? && k == step.key then Some(step.ptr)
                    else if step.Link? && s.writer.level == 0 && k == s.list.nodes[s.writer.id].key
                    then Some(s.list.nodes[s.writer.id].value)
                    else Content(s.list, k)
  {
    hide ListOk, Content, WriterOk;
    match step
    case Overwrite(_, id, p) =>
      OverwriteMeans(s.list, id, p);
      NoWriter(Write(s, step).0);
    case Begin(_, _, _, _, _) => BeginOk(s, step);
    case Copy => CopyOk(s);
    case Link =>
      LinkOk(s);
      WriterNode(s);
      PublishMeans(s.list, s.writer.level, s.writer.prev[s.writer.level], s.writer.id, k);
  }

  lemma NoWriter(list: List)
    ensures WriterOk(list, Unlocked)
  {
  }

  lemma WriterNode(s: State)
    requires Inv(s) && s.writer.Linking?
    ensures s.writer.id in s.list.nodes && s.writer.id != HEAD && s.writer.level < MAX_HEIGHT
  {
  }

  /** Chains only grow and keys never change. */
  lemma WriteGrows(s: State, step: Step)
    requires Inv(s) && Enabled(s, step) && (step.Overwrite? || step.Begin? || step.Copy? || step.Link?)
    ensures var list, list' := s.list, Write(s, step).0;
            && |list'.chains| == MAX_HEIGHT
            && (forall x :: x in list.nodes ==> x in list'.nodes && list'.nodes[x].key == list.nodes[x].key)
            && (forall l, x :: 0 <= l < MAX_HEIGHT && x in list.chains[l] ==> x in list'.chains[l])
  {
    hide InsertAfter, IsPrev;
  }

  // ------------------------------------------------------------ reader steps

  lemma ReaderStable(s: State, step: Step, r: Reader)
    requires Inv(s) && Enabled(s, step) && ReaderOk(s, r)
    ensures ReaderOk(Do(s, step), r)
  {
    if step.Overwrite? || step.Begin? || step.Copy? || step.Link? {
      WriteGrows(s, step);
      hide Write, Enabled, Inv, Content;
    }
  }

  /** The final load on the bottom level lands on the least node >= key of that moment. */
  lemma FinalLoadIsLeast(s: State, tid: nat)
    requires Inv(s) && Enabled(s, Load(tid))
    requires s.readers[tid].level == 0
    requires var next := s.list.nodes[s.readers[tid].x].next[0];
             !(next.Some? && next.value in s.list.nodes && Below(s.list.nodes[next.value].key, s.readers[tid].key))
    ensures IsLeast(s.list.nodes, s.list.chains[0], s.readers[tid].key, s.list.nodes[s.readers[tid].x].next[0])
  {
    var r := s.readers[tid];
    assert ReaderOk(s, r) && LevelOk(s.list, 0);
    NextOnChain(s.list, 0, r.x);
    StopIsLeast(s.list.nodes, s.list.chains[0], 0, r.key, r.x);
  }

  lemma NextOnChain(list: List, level: nat, x: nat)
    requires ListOk(list) && level < MAX_HEIGHT && x in list.chains[level]
    ensures x in list.nodes && level < |list.nodes[x].next|
    ensures list.nodes[x].next[level].Some? ==>
              var y := list.nodes[x].next[level].value; y in list.chains[level] && y in list.nodes && y != HEAD
  {
    assert LevelOk(list, level);
    var chain := list.chains[level];
    var i :| 0 <= i < |chain| && chain[i] == x;
    assert list.nodes[x].next[level] == Successor(chain, i);
  }

  lemma HeadOnChain(list: List, level: nat)
    requires ListOk(list) && level < MAX_HEIGHT
    ensures list.chains[level] != [] && list.chains[level][0] == HEAD && HEAD in list.chains[level]
  {
    assert LevelOk(list, level);
  }

  lemma SuccessorAt(list: List, level: nat, j: int)
    requires ListOk(list) && level < MAX_HEIGHT && 0 <= j < |list.chains[level]|
    ensures list.chains[level][j] in list.nodes && level < |list.nodes[list.chains[level][j]].next|
    ensures list.nodes[list.chains[level][j]].next[level] == Successor(list.chains[level], j)
    ensures j + 1 < |list.chains[level]| ==> list.chains[level][j + 1] in list.nodes
  {
    assert LevelOk(list, level);
  }

  lemma LoadOk(s: State, tid: nat)
    requires Inv(s) && Enabled(s, Load(tid))
    ensures ReaderOk(s, Read(s, Load(tid)))
  {
    hide Linked, Ascends, Lookup, IsLeast, WriterOk;
    var r := s.readers[tid];
    assert ReaderOk(s, r);
    assert LevelOk(s.list, r.level) && LevelOk(s.list, 0);
    NextOnChain(s.list, r.level, r.x);
    var next := s.list.nodes[r.x].next[r.level];
    var right := next.Some? && next.value in s.list.nodes && Below(s.list.nodes[next.value].key, r.key);
    if !right && r.level == 0 {
      FinalLoadIsLeast(s, tid);
      LeastDecides(s.list.nodes, s.list.chains[0], r.key, next);
    }
  }

  lemma ReadOk(s: State, step: Step)
    requires Inv(s) && Enabled(s, step) && (step.Start? || step.Load? || step.LoadValue?)
    ensures ReaderOk(s, Read(s, step))
  {
    hide Linked, Ascends, Lookup, WriterOk;
    match step
    case Start(_, k) =>
      HeadOnChain(s.list, s.list.maxHeight - 1);
    case Load(tid) =>
      LoadOk(s, tid);
    case LoadValue(tid) =>
      var r := s.readers[tid];
      assert ReaderOk(s, r) && LevelOk(s.list, 0);
      LookupMember(s.list.nodes, s.list.chains[0], r.key, r.id);
  }

  // -------------------------------------------------------------- whole runs

  ghost predicate Init(s: State) {
    && s.list == List(map[HEAD := Node([], Pointer(0, 0, 0), seq(MAX_HEIGHT, _ => None))], 1,
                      seq(MAX_HEIGHT, _ => [HEAD]))
    && s.writer == Unlocked && s.readers == map[] && s.hist == [s.list]
  }

  lemma InvStep(s: State, step: Step)
    requires Inv(s) && Enabled(s, step)
    ensures Inv(Do(s, step))
  {
    hide ListOk, WriterOk, ReaderOk;
    var s' := Do(s, step);
    if step.Overwrite? || step.Begin? || step.Copy? || step.Link? {
      WriteRefines(s, step, []);
    } else {
      ReadOk(s, step);
    }
    forall tid | tid in s'.readers ensures ReaderOk(s', s'.readers[tid]) {
      var r := s'.readers[tid];
      if tid in s.readers && s.readers[tid] == r {
        ReaderStable(s, step, r);
      } else {
        ReaderSame(s, s', r);
      }
    }
  }

  lemma ReaderSame(s: State, s': State, r: Reader)
    requires ReaderOk(s, r) && s'.list == s.list && s'.hist == s.hist
    ensures ReaderOk(s', r)
  {
  }

  ghost predicate Stepped(s: State, step: Step, s': State) {
    Enabled(s, step) && s' == Do(s, step)
  }

  /** `steps[i]` leads from `run[i]` to the next state. */
  ghost predicate IsRun(run: seq<State>, steps: seq<Step>) {
    && |run| == |steps| + 1 && Init(run[0])
    && forall i :: 0 <= i < |steps| ==> Stepped(run[i], steps[i], run[i + 1])
  }

  lemma RunStep(run: seq<State>, steps: seq<Step>, n: nat)
    requires IsRun(run, steps) && n < |steps|
    ensures Stepped(run[n], steps[n], run[n + 1])
  {
    hide Stepped, Init;
  }

  lemma {:induction false} RunInv(run: seq<State>, steps: seq<Step>, n: nat)
    requires IsRun(run, steps) && n < |run|
    ensures Inv(run[n])
  {
    hide Inv, Enabled, Do, Init;
    if n == 0 {
      InitInv(run[0]);
    } else {
      RunInv(run, steps, n - 1);
      RunStep(run, steps, n - 1);
      InvStep(run[n - 1], steps[n - 1]);
    }
  }

  lemma InitInv(s: State)
    requires Init(s)
    ensures Inv(s) && forall k :: Content(s.list, k).None?
  {
    forall l | 0 <= l < MAX_HEIGHT ensures LevelOk(s.list, l) {}
  }

  /** Over every interleaving, each level is strictly sorted and a sub-list of the level below. */
  lemma LevelsOverRuns(run: seq<State>, steps: seq<Step>, n: nat)
    requires IsRun(run, steps) && n < |run|
    ensures ListOk(run[n].list)
  {
    RunInv(run, steps, n);
  }

  // -------------------------------------------------------- puts on a plain map

  /** The map that readers should see, and the put of a new key that has begun and is not visible yet. */
  datatype Plain = Plain(content: map<Key, Pointer>, begun: Option<(Key, Pointer)>)

  /** Storing over a key sets it at once; a new key is set by the first link made after its put began. */
  function PlainStep(a: Plain, step: Step): Plain {
    match step
    case Overwrite(k, _, p) => a.(content := a.content[k := p])
    case Begin(k, p, _, _, _) => a.(begun := Some((k, p)))
    case Link => if a.begun.Some? then Plain(a.content[a.begun.value.0 := a.begun.value.1], None) else a
    case _ => a
  }

  function PlainAfter(steps: seq<Step>): Plain {
    if steps == [] then Plain(map[], None) else PlainStep(PlainAfter(steps[..|steps| - 1]), steps[|steps| - 1])
  }

  function MapGet(m: map<Key, Pointer>, k: Key): Option<Pointer> {
    if k in m then Some(m[k]) else None
  }

  /** The list shows the plain map, and a put of a new key is begun exactly until its bottom link is made. */
  ghost predicate Tracks(s: State, a: Plain) {
    && |s.list.chains| == MAX_HEIGHT && (forall k :: Content(s.list, k) == MapGet(a.content, k))
    && (a.begun.Some? <==> s.writer.Linking? && s.writer.level == 0)
    && (a.begun.Some? ==>
          s.writer.id in s.list.nodes
          && a.begun.value == (s.list.nodes[s.writer.id].key, s.list.nodes[s.writer.id].value))
  }

  lemma TracksStep(s: State, step: Step, a: Plain)
    requires Inv(s) && Enabled(s, step) && Tracks(s, a)
    ensures Tracks(Do(s, step), PlainStep(a, step))
  {
    hide ListOk, WriterOk, ReaderOk, Content, PrevsOk;
    if step.Overwrite? || step.Begin? || step.Copy? || step.Link? {
      WriteGrows(s, step);
      WriterMoves(s, step);
      forall k ensures Content(Write(s, step).0, k) == MapGet(PlainStep(a, step).content, k) {
        WriteRefines(s, step, k);
      }
    }
  }

  /** What a step does to the writer and the node it is linking. */
  lemma WriterMoves(s: State, step: Step)
    requires Enabled(s, step) && (step.Overwrite? || step.Begin? || step.Copy? || step.Link?)
    ensures var (list', w') := Write(s, step);
            && (step.Overwrite? ==> s.writer.Unlocked? && w'.Unlocked?)
            && (step.Begin? ==> s.writer.Unlocked? && w'.Linking? && w'.level == 0 && w'.id in list'.nodes
                                && list'.nodes[w'.id].key == step.key && list'.nodes[w'.id].value == step.ptr)
            && (step.Copy? ==> s.writer.Linking? && w'.Linking? && w'.level == s.writer.level && w'.id == s.writer.id
                               && w'.id in s.list.nodes && w'.id in list'.nodes
                               && list'.nodes[w'.id].key == s.list.nodes[w'.id].key
                               && list'.nodes[w'.id].value == s.list.nodes[w'.id].value)
            && (step.Link? ==> s.writer.Linking? && (w'.Linking? ==> w'.level == s.writer.level + 1))
  {
    hide PrevsOk, InsertAfter;
  }

  /** Over every interleaving the list shows what the puts, taken one after the other, make of a plain map. */
  lemma {:induction false} PutsRefineMap(run: seq<State>, steps: seq<Step>, n: nat)
    requires IsRun(run, steps) && n < |run|
    ensures Tracks(run[n], PlainAfter(steps[..n]))
  {
    hide Inv, Enabled, Do, Init, Tracks, PlainStep;
    if n == 0 {
      assert steps[..0] == [];
      InitTracks(run[0]);
    } else {
      PutsRefineMap(run, steps, n - 1);
      RunInv(run, steps, n - 1);
      RunStep(run, steps, n - 1);
      TracksStep(run[n - 1], steps[n - 1], PlainAfter(steps[..n - 1]));
      assert steps[..n][..n - 1] == steps[..n - 1];
    }
  }

  lemma InitTracks(s: State)
    requires Init(s)
    ensures Tracks(s, Plain(map[], None))
  {
    InitInv(s);
  }

  /** A put of a new key, from its beginning to its first link: whatever readers do in between, the link sets
      exactly that key to exactly that pointer. */
  lemma {:induction false} NewKeyAppears(run: seq<State>, steps: seq<Step>, i: nat, j: nat, k: Key)
    requires IsRun(run, steps) && i < j < |steps| && steps[i].Begin? && steps[j].Link?
    requires forall x :: i < x < j ==> !steps[x].Link?
    ensures |run[j].list.chains| == MAX_HEIGHT && |run[j + 1].list.chains| == MAX_HEIGHT
    ensures Content(run[j + 1].list, k) == if k == steps[i].key then Some(steps[i].ptr) else Content(run[j].list, k)
  {
    hide Stepped, Init, Content, PlainAfter;
    PutsRefineMap(run, steps, j);
    PutsRefineMap(run, steps, j + 1);
    StillBegun(run, steps, i, j);
    PlainMore(steps, j);
  }

  lemma PlainMore(steps: seq<Step>, n: nat)
    requires n < |steps|
    ensures PlainAfter(steps[..n + 1]) == PlainStep(PlainAfter(steps[..n]), steps[n])
  {
    assert steps[..n + 1][..n] == steps[..n];
  }

  lemma {:induction false} StillBegun(run: seq<State>, steps: seq<Step>, i: nat, j: nat)
    requires IsRun(run, steps) && i < j <= |steps| && steps[i].Begin? && forall x :: i < x < j ==> !steps[x].Link?
    ensures PlainAfter(steps[..j]).begun == Some((steps[i].key, steps[i].ptr))
    decreases j
  {
    hide Init, Enabled, Do, PlainAfter;
    PlainMore(steps, j - 1);
    if i < j - 1 {
      StillBegun(run, steps, i, j - 1);
      PutsRefineMap(run, steps, j - 1);
      RunStep(run, steps, j - 1);
      OnePutAtATime(run[j - 1], steps[j - 1], PlainAfter(steps[..j - 1]));
    }
  }

  lemma OnePutAtATime(s: State, step: Step, a: Plain)
    requires Tracks(s, a) && a.begun.Some? && Enabled(s, step)
    ensures !step.Begin?
  {
    hide Content;
  }

  // ---------------------------------------------------------- reads in a run

  /** From its start on a reader keeps its key and the moment it began. */
  lemma {:induction false} ReaderTracked(run: seq<State>, steps: seq<Step>, i: nat, j: nat, tid: nat, k: Key)
    requires IsRun(run, steps) && i < j < |run| && steps[i] == Start(tid, k)
    ensures tid in run[j].readers && run[j].readers[tid].key == k
    ensures |run[i].hist| > 0 && run[j].readers[tid].since == |run[i].hist| - 1
    decreases j
  {
    hide Stepped, Init;
    RunStep(run, steps, j - 1);
    if i == j - 1 {
      ReaderStarts(run[i], run[j], tid, k);
    } else {
      ReaderTracked(run, steps, i, j - 1, tid, k);
      ReaderKeeps(run[j - 1], steps[j - 1], run[j], tid);
    }
  }

  lemma ReaderStarts(s: State, s': State, tid: nat, k: Key)
    requires Stepped(s, Start(tid, k), s')
    ensures tid in s'.readers && s'.readers[tid].key == k && |s.hist| > 0 && s'.readers[tid].since == |s.hist| - 1
  {
  }

  lemma ReaderKeeps(s: State, step: Step, s': State, tid: nat)
    requires Stepped(s, step, s') && tid in s.readers
    ensures tid in s'.readers && s'.readers[tid].key == s.readers[tid].key
    ensures s'.readers[tid].since == s.readers[tid].since
  {
    hide Write, PrevsOk;
  }

  lemma HistorySteps(s: State, step: Step, s': State)
    requires Stepped(s, step, s')
    ensures s.hist <= s'.hist && |s'.hist| <= |s.hist| + 1
  {
    hide Write, PrevsOk, Read;
  }

  /** Every moment of the history between two states of the run is the end of the history of one of the states. */
  lemma {:induction false} MomentInRun(run: seq<State>, steps: seq<Step>, i: nat, j: nat, m: nat) returns (t: nat)
    requires IsRun(run, steps) && i <= j < |run| && |run[i].hist| <= m + 1 <= |run[j].hist|
    ensures i <= t <= j && |run[t].hist| == m + 1 && run[t].hist <= run[j].hist
    decreases j
  {
    hide Stepped, Init;
    if |run[j].hist| == m + 1 {
      t := j;
    } else {
      RunStep(run, steps, j - 1);
      HistorySteps(run[j - 1], steps[j - 1], run[j]);
      t := MomentInRun(run, steps, i, j - 1, m);
    }
  }

  /** Reads are linearizable: whatever runs beside it, a get of `k` that started at step `i` and has returned in
      state `j` returned what the puts up to some moment between the two make of a plain map. */
  lemma {:induction false} ReadLinearizable(run: seq<State>, steps: seq<Step>, i: nat, j: nat, tid: nat, k: Key)
    requires IsRun(run, steps) && i < j < |run| && steps[i] == Start(tid, k)
    requires tid in run[j].readers && run[j].readers[tid].Returned?
    ensures exists t :: i <= t <= j && run[j].readers[tid].result == MapGet(PlainAfter(steps[..t]).content, k)
  {
    hide Stepped, Init, Content, PlainAfter;
    RunInv(run, steps, j);
    ReaderTracked(run, steps, i, j, tid, k);
    var r := run[j].readers[tid];
    assert ReaderOk(run[j], r);
    hide Inv, ReaderOk;
    var t := MomentInRun(run, steps, i, j, r.at);
    RunInv(run, steps, t);
    LastMoment(run[t]);
    PutsRefineMap(run, steps, t);
  }

  lemma LastMoment(s: State)
    requires Inv(s)
    ensures s.hist != [] && s.hist[|s.hist| - 1] == s.list
  {
    hide ListOk, WriterOk, ReaderOk;
  }

  // ------------------------------------------------------ the code, run alone

  /** Where a search stands on a level when it stops there. */
  ghost predicate Stops(list: List, level: nat, x: nat, k: Key)
    requires level < |list.chains|
  {
    && x in list.chains[level] && Precedes(list.nodes, x, k) && level < |list.nodes[x].next|
    && var next := list.nodes[x].next[level];
       next.Some? ==> next.value in list.nodes && !Below(list.nodes[next.value].key, k)
  }

  /** A search that does not end on its key has found a place to insert on every level. */
  lemma StopIsPrev(list: List, level: nat, x: nat, k: Key, found: Option<nat>)
    requires ListOk(list) && level < MAX_HEIGHT && Stops(list, level, x, k)
    requires IsLeast(list.nodes, list.chains[0], k, found)
    requires found.Some? ==> list.nodes[found.value].key != k
    ensures IsPrev(list, level, x, k)
  {
    assert LevelOk(list, level) && LevelOk(list, 0);
    LeastDecides(list.nodes, list.chains[0], k, found);
    var chain := list.chains[level];
    var j :| 0 <= j < |chain| && chain[j] == x;
    assert list.nodes[x].next[level] == Successor(chain, j);
    if j + 1 < |chain| {
      var y := chain[j + 1];
      ReachesBottom(list, level, y);
      var holder := LookupHolder(list.nodes, list.chains[0], k);
      BelowTotal(list.nodes[y].key, k);
    }
    assert PrevAt(list.nodes, chain, x, k, j);
  }

  lemma {:induction false} ReachesBottom(list: List, level: nat, x: nat)
    requires ListOk(list) && level < MAX_HEIGHT && x in list.chains[level]
    ensures x in list.chains[0]
  {
    hide LevelOk;
    if level > 0 {
      LevelBelow(list, level);
      ReachesBottom(list, level - 1, x);
    }
  }

  lemma LevelBelow(list: List, level: nat)
    requires 0 < level < |list.chains| && LevelOk(list, level)
    ensures forall x :: x in list.chains[level] ==> x in list.chains[level - 1]
  {
    hide Linked, Ascends;
  }

  class ConcurrentSkipList {
    var nodes: Nodes
    var maxHeight: nat
    var nextId: nat
    ghost var chains: seq<seq<nat>>

    ghost function Abs(): List
      reads this
    {
      List(nodes, maxHeight, chains)
    }

    ghost predicate Valid()
      reads this
    {
      ListOk(Abs()) && forall x :: x in nodes ==> x < nextId
    }

    constructor ()
      ensures Valid() && forall k :: Content(Abs(), k).None?
    {
      nodes := map[HEAD := Node([], Pointer(0, 0, 0), seq(MAX_HEIGHT, _ => None))];
      maxHeight, nextId, chains := 1, 1, seq(MAX_HEIGHT, _ => [HEAD]);
      new;
      forall l | 0 <= l < MAX_HEIGHT ensures LevelOk(Abs(), l) {}
    }

    /** The search loop: right while the next key is smaller, else down, recording where it turned. */
    method FindGreaterOrEqual(k: Key) returns (found: Option<nat>, prev: seq<nat>)
      requires Valid()
      ensures IsLeast(nodes, chains[0], k, found) && |prev| == MAX_HEIGHT
      ensures forall l :: 0 <= l < maxHeight ==> Stops(Abs(), l, prev[l], k)
    {
      hide Linked, Ascends, IsLeast;
      prev := seq(MAX_HEIGHT, _ => HEAD);
      var x := HEAD;
      var level: nat := maxHeight - 1;
      ghost var j := 0;
      HeadOnChain(Abs(), level);
      while true
        invariant level < maxHeight && |prev| == MAX_HEIGHT
        invariant 0 <= j < |chains[level]| && chains[level][j] == x && Precedes(nodes, x, k)
        invariant forall l :: level < l < maxHeight ==> Stops(Abs(), l, prev[l], k)
        decreases level, |chains[level]| - j
      {
        SuccessorAt(Abs(), level, j);
        var next := nodes[x].next[level];
        if next.Some? && Below(nodes[next.value].key, k) {
          x, j := next.value, j + 1;
        } else {
          prev := prev[level := x];
          assert Stops(Abs(), level, x, k);
          assert LevelOk(Abs(), level);
          if level == 0 {
            StopIsLeast(nodes, chains[0], 0, k, x);
            return next, prev;
          }
          level := level - 1;
          assert x in chains[level];
          j :| 0 <= j < |chains[level]| && chains[level][j] == x;
        }
      }
    }

    method Get(k: Key) returns (r: Option<Pointer>)
      requires Valid()
      ensures r == Content(Abs(), k)
    {
      var found, prev := FindGreaterOrEqual(k);
      assert LevelOk(Abs(), 0);
      LeastDecides(nodes, chains[0], k, found);
      if found.Some? && nodes[found.value].key == k {
        return Some(nodes[found.value].value);
      }
      return None;
    }

    /** A completed put is a map update, whatever tower height was drawn. */
    method Put(k: Key, p: Pointer, height: nat)
      requires Valid() && 1 <= height <= MAX_HEIGHT
      modifies this
      ensures Valid()
      ensures forall key :: Content(Abs(), key) == if key == k then Some(p) else old(Content(Abs(), key))
    {
      var found: Option<nat>, prev: seq<nat>;
      found, prev := FindGreaterOrEqual(k);
      if found.Some? && nodes[found.value].key == k {
        OverwriteMeans(Abs(), found.value, p);
        nodes := nodes[found.value := nodes[found.value].(value := p)];
        return;
      }
      ghost var before := Abs();
      forall l | 0 <= l < maxHeight ensures IsPrev(before, l, prev[l], k) {
        StopIsPrev(before, l, prev[l], k, found);
      }
      var id := nextId;
      var i := maxHeight;
      while i < height
        invariant |prev| == MAX_HEIGHT && i <= MAX_HEIGHT
        invariant forall l :: 0 <= l < maxHeight ==> IsPrev(before, l, prev[l], k)
        invariant forall l :: maxHeight <= l < i ==> prev[l] == HEAD
      {
        prev := prev[i := HEAD];
        i := i + 1;
      }
      var node := Node(k, p, seq(height, _ => None));
      AllocateKeepsList(before, id, node, height);
      nodes, nextId, maxHeight := nodes[id := node], nextId + 1, Raised(height, maxHeight);
      forall l | 0 <= l < height ensures IsPrev(Abs(), l, prev[l], k) {
        assert LevelOk(before, l);
        if l >= before.maxHeight { assert PrevAt(before.nodes, before.chains[l], HEAD, k, 0); }
        PrevStays(before, Abs(), l, prev[l], k);
      }
      LinkLevels(id, k, height, prev);
    }

    /** The linking loop: on each level copy the successor into the node, then publish the node. */
    method LinkLevels(id: nat, k: Key, height: nat, prev: seq<nat>)
      requires Valid() && id in nodes && id != HEAD && nodes[id].key == k && |nodes[id].next| == height
      requires 1 <= height <= maxHeight && height <= |prev|
      requires forall l :: 0 <= l < MAX_HEIGHT ==> id !in chains[l]
      requires PrevsOk(Abs(), prev, k, 0, height)
      modifies this`nodes, this`chains
      ensures Valid()
      ensures forall key :: Content(Abs(), key)
                         == if key == k then Some(old(nodes)[id].value) else old(Content(Abs(), key))
    {
      ghost var value := nodes[id].value;
      var i := 0;
      while i < height
        invariant i <= height && Valid()
        invariant WriterOk(Abs(), if i < height then Linking(id, height, prev, i, false) else Unlocked)
        invariant id in nodes && nodes[id].value == value && nodes[id].key == k
        invariant forall key :: Content(Abs(), key)
                             == if i > 0 && key == k then Some(value) else old(Content(Abs(), key))
      {
        LinkOne(id, k, height, prev, i);
        i := i + 1;
      }
    }

    method LinkOne(id: nat, k: Key, height: nat, prev: seq<nat>, i: nat)
      requires Valid() && i < height && WriterOk(Abs(), Linking(id, height, prev, i, false)) && nodes[id].key == k
      modifies this`nodes, this`chains
      ensures Valid() && id in nodes && nodes[id].value == old(nodes)[id].value && nodes[id].key == k
      ensures WriterOk(Abs(), if i + 1 < height then Linking(id, height, prev, i + 1, false) else Unlocked)
      ensures forall key :: Content(Abs(), key)
                         == if i == 0 && key == k then Some(old(nodes)[id].value) else old(Content(Abs(), key))
    {
      ghost var s := State(Abs(), Linking(id, height, prev, i, false), map[], [Abs()]);
      PrevFacts(Abs(), i, prev[i], k);
      CopyOk(s);
      nodes := SetNext(nodes, id, i, nodes[prev[i]].next[i]);
      ghost var s' := State(Abs(), Linking(id, height, prev, i, true), map[], [Abs()]);
      assert Abs() == Write(s, Copy).0;
      PrevFacts(Abs(), i, prev[i], k);
      LinkOk(s');
      forall key ensures Content(Publish(Abs(), i, prev[i], id), key)
                      == if i == 0 && key == k then Some(old(nodes)[id].value) else old(Content(Abs(), key))
      {
        PublishMeans(Abs(), i, prev[i], id, key);
      }
      chains := chains[i := InsertAfter(chains[i], prev[i], id)];
      nodes := SetNext(nodes, prev[i], i, Some(id));
      assert Abs() == Write(s', Link).0;
    }

    /** Iteration from the first node yields the content in key order. */
    method Entries() returns (es: seq<Lsm.Entry>)
      requires Valid()
      ensures Lsm.Sorted(es) && forall k :: Lsm.Find(es, k) == Content(Abs(), k)
    {
      hide Linked, Ascends, Lookup;
      es := [];
      ghost var chain := chains[0];
      HeadOnChain(Abs(), 0);
      SuccessorAt(Abs(), 0, 0);
      var node := nodes[HEAD].next[0];
      while node.Some?
        invariant |es| < |chain| && node == Successor(chain, |es|)
        invariant Spells(nodes, chain, es)
        decreases |chain| - |es|
      {
        var x := node.value;
        SuccessorAt(Abs(), 0, |es|);
        SuccessorAt(Abs(), 0, |es| + 1);
        SpellsMore(nodes, chain, es);
        es := es + [Lsm.Entry(nodes[x].key, nodes[x].value)];
        node := nodes[x].next[0];
      }
      EntriesSorted(Abs(), es);
      forall k ensures Lsm.Find(es, k) == Content(Abs(), k) {
        EntriesFind(Abs(), es, k);
      }
    }
  }

  ghost predicate Spells(nodes: Nodes, chain: seq<nat>, es: seq<Lsm.Entry>) {
    |es| < |chain| && forall i :: 0 <= i < |es| ==> SpellsAt(nodes, chain, es[i], i + 1)
  }

  ghost predicate SpellsAt(nodes: Nodes, chain: seq<nat>, e: Lsm.Entry, i: nat) {
    i < |chain| && chain[i] in nodes && e == Lsm.Entry(nodes[chain[i]].key, nodes[chain[i]].value)
  }

  lemma SpellsMore(nodes: Nodes, chain: seq<nat>, es: seq<Lsm.Entry>)
    requires Spells(nodes, chain, es) && |es| + 1 < |chain| && chain[|es| + 1] in nodes
    ensures var x := chain[|es| + 1]; Spells(nodes, chain, es + [Lsm.Entry(nodes[x].key, nodes[x].value)])
  {
    var x := chain[|es| + 1];
    var more := es + [Lsm.Entry(nodes[x].key, nodes[x].value)];
    forall i | 0 <= i < |more| ensures SpellsAt(nodes, chain, more[i], i + 1) {
      if i < |es| { assert SpellsAt(nodes, chain, es[i], i + 1); }
    }
  }

  lemma EntriesSorted(list: List, es: seq<Lsm.Entry>)
    requires ListOk(list) && Spells(list.nodes, list.chains[0], es)
    ensures Lsm.Sorted(es)
  {
    assert LevelOk(list, 0);
  }

  lemma EntriesFind(list: List, es: seq<Lsm.Entry>, k: Key)
    requires ListOk(list) && |es| + 1 == |list.chains[0]| && Lsm.Sorted(es) && Spells(list.nodes, list.chains[0], es)
    ensures Lsm.Find(es, k) == Content(list, k)
  {
    assert LevelOk(list, 0);
    var chain := list.chains[0];
    if i :| 0 <= i < |es| && es[i].key == k {
      Lsm.FindAt(es, i);
      assert KeyAt(list.nodes, chain, k, i + 1);
      LookupAt(list.nodes, chain, k, i + 1);
    } else {
      forall i ensures !KeyAt(list.nodes, chain, k, i) {
        if 0 < i < |chain| { assert es[i - 1].key != k; }
      }
    }
  }
}
