/** Removal of a generated output tree through checked handles, while other processes may act. */
module TreeRemoval {
  import opened Cardinality

  datatype Name = Name(text: string)

  type Path = seq<Name>

  /** What a pinned handle reports. `ordinary` is false for reparse points and hard-linked files. */
  datatype Node = Node(identity: nat, stamp: nat, directory: bool, ordinary: bool)

  type Tree = map<Path, Node>

  const ENTRY_LIMIT := 50_000
  const DEPTH_LIMIT := 128

  /** Every entry sits in a directory entry, up to the volume root. */
  ghost predicate Closed(t: Tree) {
    forall p :: p in t && p != [] ==> p[..|p| - 1] in t && t[p[..|p| - 1]].directory
  }

  lemma {:induction false} PrefixesExist(t: Tree, p: Path, k: nat)
    requires Closed(t) && p in t && k <= |p|
    ensures p[..k] in t && (k < |p| ==> t[p[..k]].directory)
    decreases |p| - k
  {
    if k < |p| {
      PrefixesExist(t, p, k + 1);
      assert p[..k + 1][..k] == p[..k];
    } else {
      assert p[..k] == p;
    }
  }

  /** The entries at or under `top`. */
  function Below(t: Tree, top: Path): Tree {
    map p | p in t && top <= p :: t[p]
  }

  predicate HasChild(t: Tree, p: Path) {
    exists c :: c in t && |c| == |p| + 1 && p <= c
  }

  // ---------- Snapshot ----------

  /** Entries that the bounded inventory cannot accept. */
  predicate Unacceptable(top: Path, p: Path, n: Node) {
    !n.ordinary || |p| - |top| > DEPTH_LIMIT
  }

  function Refusing(top: Path): (Path, Node) -> bool { (p, n) => Unacceptable(top, p, n) }

  ghost predicate Acceptable<K, V>(refuses: (K, V) -> bool, entries: map<K, V>) {
    forall p :: p in entries ==> !refuses(p, entries[p])
  }

  /** The part of the tree under `p` whose branches have been visited. */
  ghost function Visited(t: Tree, p: Path, branches: set<Path>): Tree {
    map k | k in t && p <= k && (k == p || k[..|p| + 1] in branches) :: t[k]
  }

  /** Outcome of visiting: the complete addition, or proof that a limit is broken. */
  ghost predicate VisitOutcome<K, V>(refuses: (K, V) -> bool, before: map<K, V>, added: map<K, V>, r: map<K, V>, ok: bool) {
    if ok then r == before + added && |r| <= ENTRY_LIMIT && Acceptable(refuses, added)
    else !Acceptable(refuses, added) || |before + added| > ENTRY_LIMIT
  }

  lemma {:induction false} SubmapSize<K, V>(small: map<K, V>, large: map<K, V>)
    requires small.Keys <= large.Keys
    ensures |small| <= |large|
  {
    SubsetSize(small.Keys, large.Keys);
  }

  /** Recursive visiting with the entry and depth limits. */
  method Visit(t: Tree, top: Path, p: Path, before: Tree) returns (r: Tree, ok: bool)
    requires Closed(t) && p in t && top <= p && |p| - |top| <= DEPTH_LIMIT + 1
    requires |before| <= ENTRY_LIMIT && before.Keys !! Below(t, p).Keys
    ensures VisitOutcome(Refusing(top), before, Below(t, p), r, ok)
    decreases DEPTH_LIMIT + 1 - (|p| - |top|), 2
  {
    if |before| >= ENTRY_LIMIT || |p| - |top| > DEPTH_LIMIT || !t[p].ordinary {
      RefusedHere(t, top, p, before);
      return before, false;
    }
    assert p in Below(t, p);
    if t[p].directory {
      r, ok := VisitChildren(t, top, p, before);
    } else {
      LeafOnly(t, p);
      AcceptedOne(Refusing(top), p, t[p], before);
      r, ok := before[p := t[p]], true;
    }
  }

  lemma RefusedHere(t: Tree, top: Path, p: Path, before: Tree)
    requires p in t && top <= p && p !in before
    requires |before| >= ENTRY_LIMIT || Unacceptable(top, p, t[p])
    ensures VisitOutcome(Refusing(top), before, Below(t, p), before, false)
  {
    assert p in Below(t, p) && Refusing(top)(p, t[p]) == Unacceptable(top, p, t[p]);
    SubsetSize(before.Keys + {p}, (before + Below(t, p)).Keys);
  }

  lemma LeafOnly(t: Tree, p: Path)
    requires Closed(t) && p in t && !t[p].directory
    ensures Below(t, p) == map[p := t[p]]
  {
    forall k | k in t && p <= k
      ensures k == p
    {
      PrefixesExist(t, k, |p|);
      assert k[..|p|] == p;
    }
  }

  lemma AcceptedOne<K, V>(refuses: (K, V) -> bool, p: K, n: V, before: map<K, V>)
    requires !refuses(p, n) && |before| < ENTRY_LIMIT && p !in before
    ensures VisitOutcome(refuses, before, map[p := n], before[p := n], true)
  {
  }

  lemma BranchesPartition(t: Tree, p: Path, branches: set<Path>, c: Path)
    requires c !in branches && |c| == |p| + 1 && p <= c
    ensures Visited(t, p, branches + {c}) == Visited(t, p, branches) + Below(t, c)
    ensures Visited(t, p, branches).Keys !! Below(t, c).Keys
  {
    forall k | k in t && c <= k ensures p <= k && k != p && k[..|p| + 1] == c { }
  }

  lemma AllBranches(t: Tree, p: Path, branches: set<Path>)
    requires Closed(t) && p in t && branches == ChildrenOf(t, p)
    ensures Visited(t, p, branches) == Below(t, p)
  {
    forall k | k in t && p <= k && k != p
      ensures k[..|p| + 1] in branches
    {
      PrefixesExist(t, k, |p| + 1);
    }
  }

  lemma NoBranches(t: Tree, p: Path)
    requires p in t
    ensures Visited(t, p, {}) == map[p := t[p]]
  {
  }

  ghost predicate PartOf<K, V>(small: map<K, V>, large: map<K, V>) {
    forall k :: k in small ==> k in large && large[k] == small[k]
  }

  lemma MergeAssociates<K, V>(x: map<K, V>, y: map<K, V>, z: map<K, V>)
    ensures (x + y) + z == x + (y + z)
  {
  }

  lemma BothAcceptable<K, V>(refuses: (K, V) -> bool, a: map<K, V>, b: map<K, V>)
    requires Acceptable(refuses, a) && Acceptable(refuses, b)
    ensures Acceptable(refuses, a + b)
  {
  }

  lemma PartOfMerge<K, V>(before: map<K, V>, a: map<K, V>, b: map<K, V>, whole: map<K, V>)
    requires PartOf(a, whole) && PartOf(b, whole)
    ensures (before + (a + b)).Keys <= (before + whole).Keys
  {
  }

  lemma PartRefused<K, V>(refuses: (K, V) -> bool, part: map<K, V>, whole: map<K, V>)
    requires PartOf(part, whole) && !Acceptable(refuses, part)
    ensures !Acceptable(refuses, whole)
  {
    var k :| k in part && refuses(k, part[k]);
    assert k in whole && whole[k] == part[k];
  }

  /** One more addition either extends the accepted part or breaks a limit for the whole. */
  lemma Extends<K, V>(refuses: (K, V) -> bool, before: map<K, V>, a: map<K, V>, r: map<K, V>, b: map<K, V>,
                      r': map<K, V>, ok: bool, whole: map<K, V>)
    requires r == before + a && Acceptable(refuses, a) && VisitOutcome(refuses, r, b, r', ok)
    requires PartOf(a, whole) && PartOf(b, whole)
    ensures ok ==> VisitOutcome(refuses, before, a + b, r', true)
    ensures !ok ==> VisitOutcome(refuses, before, whole, r', false)
  {
    MergeAssociates(before, a, b);
    if ok {
      BothAcceptable(refuses, a, b);
    } else if !Acceptable(refuses, b) {
      PartRefused(refuses, b, whole);
    } else {
      PartOfMerge(before, a, b, whole);
      SubmapSize(before + (a + b), before + whole);
    }
  }

  lemma NextChild(t: Tree, top: Path, before: Tree, p: Path, done: set<Path>, c: Path, r: Tree, r': Tree, ok: bool)
    requires c !in done && |c| == |p| + 1 && p <= c
    requires VisitOutcome(Refusing(top), before, Visited(t, p, done), r, true)
    requires VisitOutcome(Refusing(top), r, Below(t, c), r', ok)
    ensures ok ==> VisitOutcome(Refusing(top), before, Visited(t, p, done + {c}), r', true)
    ensures !ok ==> VisitOutcome(Refusing(top), before, Below(t, p), r', false)
  {
    BranchesPartition(t, p, done, c);
    ChildPart(t, p, c);
    VisitedPart(t, p, done);
    Extends(Refusing(top), before, Visited(t, p, done), r, Below(t, c), r', ok, Below(t, p));
  }

  lemma ChildPart(t: Tree, p: Path, c: Path)
    requires p <= c
    ensures PartOf(Below(t, c), Below(t, p))
  {
  }

  lemma VisitedPart(t: Tree, p: Path, branches: set<Path>)
    ensures PartOf(Visited(t, p, branches), Below(t, p))
  {
  }

  lemma ChildApart(t: Tree, before: Tree, p: Path, done: set<Path>, c: Path)
    requires c !in done && |c| == |p| + 1 && p <= c && before.Keys !! Below(t, p).Keys
    ensures (before + Visited(t, p, done)).Keys !! Below(t, c).Keys
  {
    BranchesPartition(t, p, done, c);
    ChildPart(t, p, c);
    assert forall k :: k in Below(t, c) ==> k !in before;
  }

  /** One iteration over the children of a directory. */
  method VisitChild(t: Tree, top: Path, p: Path, ghost before: Tree, ghost done: set<Path>, c: Path, known: Tree)
    returns (r: Tree, ok: bool)
    requires Closed(t) && p in t && top <= p && |p| - |top| <= DEPTH_LIMIT
    requires c in ChildrenOf(t, p) && c !in done && before.Keys !! Below(t, p).Keys
    requires VisitOutcome(Refusing(top), before, Visited(t, p, done), known, true)
    ensures ok ==> VisitOutcome(Refusing(top), before, Visited(t, p, done + {c}), r, true)
    ensures !ok ==> VisitOutcome(Refusing(top), before, Below(t, p), r, false)
    decreases DEPTH_LIMIT + 1 - (|p| - |top|), 0, 0
  {
    ChildApart(t, before, p, done, c);
    r, ok := Visit(t, top, c, known);
    NextChild(t, top, before, p, done, c, known, r, ok);
  }

  method VisitChildren(t: Tree, top: Path, p: Path, before: Tree) returns (r: Tree, ok: bool)
    requires Closed(t) && p in t && top <= p && |p| - |top| <= DEPTH_LIMIT && t[p].ordinary
    requires |before| < ENTRY_LIMIT && p !in before && before.Keys !! Below(t, p).Keys
    ensures VisitOutcome(Refusing(top), before, Below(t, p), r, ok)
    decreases DEPTH_LIMIT + 1 - (|p| - |top|), 1
  {
    NoBranches(t, p);
    AcceptedOne(Refusing(top), p, t[p], before);
    AllBranches(t, p, ChildrenOf(t, p));
    r, ok := VisitRest(t, top, p, before, {}, ChildrenOf(t, p), ChildrenOf(t, p), before[p := t[p]]);
  }

  /** The loop over the children that remain. */
  method VisitRest(t: Tree, top: Path, p: Path, ghost before: Tree, ghost done: set<Path>, ghost all: set<Path>,
                   rest: set<Path>, known: Tree) returns (r: Tree, ok: bool)
    requires Closed(t) && p in t && top <= p && |p| - |top| <= DEPTH_LIMIT
    requires rest <= ChildrenOf(t, p) && done !! rest && done + rest == all && before.Keys !! Below(t, p).Keys
    requires VisitOutcome(Refusing(top), before, Visited(t, p, done), known, true)
    ensures ok ==> VisitOutcome(Refusing(top), before, Visited(t, p, all), r, true)
    ensures !ok ==> VisitOutcome(Refusing(top), before, Below(t, p), r, false)
    decreases DEPTH_LIMIT + 1 - (|p| - |top|), 0, |rest| + 1
  {
    if rest == {} {
      assert done == all;
      return known, true;
    }
    var c :| c in rest;
    MoveOne(done, rest, c);
    r, ok := VisitChild(t, top, p, before, done, c, known);
    if ok { r, ok := VisitRest(t, top, p, before, done + {c}, all, rest - {c}, r); }
  }

  lemma MoveOne<T>(done: set<T>, rest: set<T>, c: T)
    requires done !! rest && c in rest
    ensures (done + {c}) + (rest - {c}) == done + rest && (done + {c}) !! (rest - {c})
    ensures c !in done && rest - {c} <= rest && |rest - {c}| < |rest|
  {
  }

  function ChildrenOf(t: Tree, p: Path): set<Path> {
    set c | c in t && |c| == |p| + 1 && p <= c
  }

  /** The exact ordinary tree, or a refusal when the bounded inventory cannot hold it. */
  method Snapshot(t: Tree, top: Path) returns (r: Tree, ok: bool)
    requires Closed(t) && top in t
    ensures ok ==> r == Below(t, top) && |r| <= ENTRY_LIMIT && Acceptable(Refusing(top), r)
    ensures !ok ==> !Acceptable(Refusing(top), Below(t, top)) || |Below(t, top)| > ENTRY_LIMIT
  {
    r, ok := Visit(t, top, top, map[]);
    assert map[] + Below(t, top) == Below(t, top);
  }

  // ---------- Removal order ----------

  /** Deepest first, every listed entry once. */
  ghost predicate DeepestFirst(order: seq<Path>) {
    && (forall i, j :: 0 <= i < j < |order| ==> |order[i]| >= |order[j]|)
    && (forall i, j :: 0 <= i < j < |order| ==> order[i] != order[j])
  }

  function InsertByDepth(order: seq<Path>, p: Path): seq<Path> {
    if order == [] || |p| >= |order[0]| then [p] + order else [order[0]] + InsertByDepth(order[1..], p)
  }

  /** Where the path goes: after the deeper ones. */
  lemma {:induction false} InsertSplits(order: seq<Path>, p: Path) returns (k: nat)
    ensures k <= |order| && InsertByDepth(order, p) == order[..k] + [p] + order[k..]
    ensures (forall i :: 0 <= i < k ==> |order[i]| > |p|) && (k < |order| ==> |p| >= |order[k]|)
    decreases |order|
  {
    if order == [] || |p| >= |order[0]| {
      k := 0;
    } else {
      var rest := order[1..];
      var j := InsertSplits(rest, p);
      k := j + 1;
      assert order[..k] == [order[0]] + rest[..j] && order[k..] == rest[j..];
      forall i | 0 <= i < k ensures |order[i]| > |p| {
        if i > 0 { assert order[i] == rest[i - 1]; }
      }
    }
  }

  /** An element of a list with `p` inserted at `k`. */
  function InsertedAt(order: seq<Path>, p: Path, k: nat, i: nat): Path
    requires k <= |order| && i <= |order|
  {
    if i < k then order[i] else if i == k then p else order[i - 1]
  }

  lemma InsertedElement(order: seq<Path>, p: Path, k: nat, r: seq<Path>, i: nat)
    requires k <= |order| && r == order[..k] + [p] + order[k..] && i < |r|
    ensures i <= |order| && r[i] == InsertedAt(order, p, k, i)
  {
  }

  lemma InsertedDeepest(order: seq<Path>, p: Path, k: nat, r: seq<Path>)
    requires DeepestFirst(order) && p !in order && k <= |order| && r == order[..k] + [p] + order[k..]
    requires (forall i :: 0 <= i < k ==> |order[i]| > |p|) && (k < |order| ==> |p| >= |order[k]|)
    ensures DeepestFirst(r)
  {
    forall i, j | 0 <= i < j < |r| ensures |r[i]| >= |r[j]| && r[i] != r[j] {
      InsertedElement(order, p, k, r, i);
      InsertedElement(order, p, k, r, j);
    }
  }

  lemma InsertedMember(order: seq<Path>, p: Path, k: nat, r: seq<Path>, q: Path)
    requires k <= |order| && r == order[..k] + [p] + order[k..]
    ensures q in r <==> q == p || q in order
  {
    assert r[k] == p;
    if q in order {
      var i :| 0 <= i < |order| && order[i] == q;
      assert r[if i < k then i else i + 1] == q;
    }
  }

  method SortByDepth(paths: set<Path>) returns (order: seq<Path>)
    ensures DeepestFirst(order) && forall p :: p in order <==> p in paths
  {
    order := [];
    var rest := paths;
    while rest != {}
      invariant rest <= paths && DeepestFirst(order) && forall p :: p in order <==> p in paths - rest
      decreases rest
    {
      var p :| p in rest;
      var r := InsertByDepth(order, p);
      ghost var k := InsertSplits(order, p);
      InsertedDeepest(order, p, k, r);
      forall q ensures q in r <==> q == p || q in order { InsertedMember(order, p, k, r, q); }
      order, rest := r, rest - {p};
    }
  }

  // ---------- Removal under interference ----------

  /** What the other processes do to the whole volume before our step `n`. */
  type Interference = (nat, Tree) -> Tree

  ghost predicate Undisturbed(others: Interference) { forall n, t :: others(n, t) == t }

  /** One deletion: the entry, and the volume at the moment it went. */
  datatype Deletion = Deletion(path: Path, before: Tree)

  /** The deleted entry is a snapshot entry of unchanged identity, a file also unchanged in content, and
      had no child at that moment. */
  ghost predicate Justified(expected: Tree, d: Deletion) {
    && d.path in expected && d.path in d.before
    && d.before[d.path].identity == expected[d.path].identity
    && d.before[d.path].directory == expected[d.path].directory
    && d.before[d.path].ordinary
    && (!expected[d.path].directory ==> d.before[d.path].stamp == expected[d.path].stamp)
    && !HasChild(d.before, d.path)
  }

  class Volume {
    var tree: Tree
    var clock: nat
    ghost var deletions: seq<Deletion>
    const others: Interference

    constructor (tree: Tree, others: Interference)
      ensures this.tree == tree && this.others == others && deletions == []
    {
      this.tree, this.others, clock := tree, others, 0;
      deletions := [];
    }

    /** Lets the other processes run. */
    method Yield()
      modifies this`tree, this`clock
      ensures tree == others(old(clock), old(tree))
      ensures Undisturbed(others) ==> tree == old(tree)
    {
      tree, clock := others(clock, tree), clock + 1;
    }

    /** Opens the entry for deletion, checks it against the snapshot, marks it for deletion and verifies
        that it is gone. The kernel refuses a directory that has children. */
    method RemoveEntry(p: Path, entry: Node, ghost expected: Tree) returns (ok: bool)
      requires p in expected && expected[p] == entry
      modifies this
      ensures deletions == old(deletions) || Appended(old(deletions), deletions, p, expected)
      ensures ok ==> Appended(old(deletions), deletions, p, expected)
      ensures ok && Undisturbed(others) ==> tree == old(tree) - {p}
      ensures Undisturbed(others) && p in old(tree) && old(tree)[p] == entry && entry.ordinary && !HasChild(old(tree), p) ==> ok
    {
      Yield();
      if p !in tree { return false; }
      var n := tree[p];
      if !n.ordinary || n.directory != entry.directory { return false; }
      if n.identity != entry.identity || (!entry.directory && n.stamp != entry.stamp) { return false; }
      if HasChild(tree, p) { return false; }
      deletions := deletions + [Deletion(p, tree)];
      tree := tree - {p};
      Yield();
      ok := p !in tree;
    }

    /** Children first, then emptied directories, and only what the snapshot lists. */
    method Remove(top: Path, expected: Tree) returns (ok: bool)
      requires Closed(tree) && deletions == []
      modifies this
      ensures forall i :: 0 <= i < |deletions| ==> Justified(expected, deletions[i])
      ensures forall i, j :: 0 <= i < j < |deletions| ==>
        deletions[i].path != deletions[j].path && !(deletions[i].path <= deletions[j].path)
      ensures ok ==> forall p :: p in expected ==> exists i :: 0 <= i < |deletions| && deletions[i].path == p
      ensures top !in old(tree) || expected != old(Below(tree, top)) ==> !ok && tree == old(tree) && deletions == []
      ensures ok && Undisturbed(others) ==> tree == old(tree) - old(Below(tree, top)).Keys
      ensures Undisturbed(others) && top in old(tree) && expected == old(Below(tree, top)) ==>
        Acceptable(Refusing(top), expected) && |expected| <= ENTRY_LIMIT ==> ok
    {
      if top !in tree { return false; }
      var snapshot, held := Snapshot(tree, top);
      if !held || snapshot != expected { return false; }
      var order := SortByDepth(expected.Keys);
      ok := RemoveAll(top, expected, order);
    }

    ghost predicate Followed(expected: Tree, order: seq<Path>)
      reads this
    {
      |deletions| <= |order| && forall i :: 0 <= i < |deletions| ==> Fits(expected, order[i], deletions[i])
    }

    /** Step `k` of the removal; `start` is the volume before the first step. */
    method RemoveStep(top: Path, expected: Tree, order: seq<Path>, k: nat, ghost start: Tree) returns (ok: bool)
      requires expected == Below(start, top) && Acceptable(Refusing(top), expected)
      requires DeepestFirst(order) && (forall p :: p in order <==> p in expected) && k < |order|
      requires Followed(expected, order) && |deletions| == k
      requires Undisturbed(others) ==> tree == start - Firsts(order, k)
      modifies this
      ensures Followed(expected, order) && (ok ==> |deletions| == k + 1)
      ensures ok && Undisturbed(others) ==> tree == start - Firsts(order, k + 1)
      ensures Undisturbed(others) ==> ok
    {
      var p := order[k];
      assert p in order;
      assert expected[p].ordinary by { assert !Refusing(top)(p, expected[p]); }
      if Undisturbed(others) {
        NoChildLeft(start, top, order, k);
        FirstsGrow(order, k);
        assert start - Firsts(order, k) - {p} == start - Firsts(order, k + 1);
      }
      ok := RemoveEntry(p, expected[p], expected);
    }

    method RemoveAll(top: Path, expected: Tree, order: seq<Path>) returns (ok: bool)
      requires expected == Below(tree, top) && Acceptable(Refusing(top), expected) && deletions == []
      requires DeepestFirst(order) && forall p :: p in order <==> p in expected
      modifies this
      ensures Followed(expected, order) && (ok ==> |deletions| == |order|)
      ensures ok && Undisturbed(others) ==> tree == old(tree) - expected.Keys
      ensures Undisturbed(others) ==> ok
    {
      ok := true;
      var k := 0;
      while k < |order| && ok
        invariant k <= |order| && Followed(expected, order) && (ok ==> |deletions| == k)
        invariant ok && Undisturbed(others) ==> tree == old(tree) - Firsts(order, k)
        invariant Undisturbed(others) ==> ok
      {
        ok := RemoveStep(top, expected, order, k, old(tree));
        k := k + 1;
      }
      AllFirsts(order, expected.Keys);
    }
  }

  ghost predicate Fits(expected: Tree, p: Path, d: Deletion) { d.path == p && Justified(expected, d) }

  ghost predicate Appended(before: seq<Deletion>, after: seq<Deletion>, p: Path, expected: Tree) {
    |after| == |before| + 1 && after[..|before|] == before && Fits(expected, p, after[|before|])
  }

  lemma AllFirsts(order: seq<Path>, paths: set<Path>)
    requires forall p :: p in order <==> p in paths
    ensures Firsts(order, |order|) == paths
  {
    forall p | p in paths ensures p in Firsts(order, |order|) {
      assert p in order;
      var i :| 0 <= i < |order| && order[i] == p;
    }
  }

  ghost function Firsts(order: seq<Path>, k: nat): set<Path>
    requires k <= |order|
  {
    set i | 0 <= i < k :: order[i]
  }

  lemma FirstsGrow(order: seq<Path>, k: nat)
    requires k < |order|
    ensures Firsts(order, k + 1) == Firsts(order, k) + {order[k]}
  {
  }

  /** When an entry's turn comes in an undisturbed tree it is still there, and its children are gone. */
  lemma NoChildLeft(t: Tree, top: Path, order: seq<Path>, k: nat)
    requires k < |order| && DeepestFirst(order) && forall p :: p in order <==> p in Below(t, top)
    ensures var left := t - Firsts(order, k);
      order[k] in left && left[order[k]] == t[order[k]] && !HasChild(left, order[k])
  {
    var p := order[k];
    assert p in order;
    forall c | c in t && |c| == |p| + 1 && p <= c
      ensures c in Firsts(order, k)
    {
      assert c in Below(t, top);
      var i :| 0 <= i < |order| && order[i] == c;
    }
  }
}
