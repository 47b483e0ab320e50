/** The scope inventory checked before any owning tool may remove a task's resources. */
module RemovalScopes {
  import opened PythonText
  import opened TreeRemoval

  const SCOPE_LIMIT := 100

  /** A resource to be released; `scopes` are the removal roots its owning tool reports. */
  datatype Resource = Resource(id: string, generated: bool, path: Option<Path>, manifest: Path, scopes: seq<Path>)

  /** The configured root and the task's own durable paths: both checkouts, evidence, handoff, config. */
  datatype Site = Site(root: Path, own: seq<Path>)

  function DeclaredScopes(r: Resource): seq<Path> {
    if r.generated && r.path.Some? then [r.path.value] else r.scopes
  }

  /** `p` is one of the paths that removing resource `i` must leave alone. */
  predicate Protected(site: Site, resources: seq<Resource>, i: nat, p: Path)
    requires i < |resources|
  {
    || p in site.own
    || (exists j :: 0 <= j < |resources| && resources[j].manifest == p)
    || (exists j :: 0 <= j < |resources| && resources[j].id != resources[i].id && resources[j].path == Some(p))
  }

  predicate Holds(scope: Path, paths: seq<Path>) { exists k :: 0 <= k < |paths| && scope <= paths[k] }

  /** The checks on one resource's scopes. */
  predicate Admissible(site: Site, resources: seq<Resource>, i: nat)
    requires i < |resources|
  {
    var scopes := DeclaredScopes(resources[i]);
    && |scopes| <= SCOPE_LIMIT
    && (scopes != [] || resources[i].path.None?)
    && forall k :: 0 <= k < |scopes| ==>
         && site.root < scopes[k]
         && !Holds(scopes[k], site.own)
         && (forall j :: 0 <= j < |resources| ==> !(scopes[k] <= resources[j].manifest))
         && (forall j :: 0 <= j < |resources| && resources[j].id != resources[i].id && resources[j].path.Some? ==>
               !(scopes[k] <= resources[j].path.value))
  }

  predicate Apart(left: seq<Path>, right: seq<Path>) {
    forall a, b :: 0 <= a < |left| && 0 <= b < |right| ==> !(left[a] <= right[b]) && !(right[b] <= left[a])
  }

  /** All of the first `k` resources are admissible and their scopes pairwise unrelated. */
  ghost predicate Inventoried(site: Site, resources: seq<Resource>, k: nat)
    requires k <= |resources|
  {
    && (forall i :: 0 <= i < k ==> Admissible(site, resources, i))
    && (forall i, j :: 0 <= i < j < k ==> Apart(DeclaredScopes(resources[i]), DeclaredScopes(resources[j])))
  }

  /** The dictionary holds the scopes of exactly the first `k` resources. */
  ghost predicate Filed(resources: seq<Resource>, scopes: map<string, seq<Path>>, k: nat)
    requires k <= |resources|
  {
    && (forall j :: 0 <= j < k ==> FiledAt(resources, scopes, j))
    && (forall id :: id in scopes ==> exists j :: 0 <= j < k && resources[j].id == id)
  }

  ghost predicate FiledAt(resources: seq<Resource>, scopes: map<string, seq<Path>>, j: nat)
    requires j < |resources|
  {
    resources[j].id in scopes && scopes[resources[j].id] == DeclaredScopes(resources[j])
  }

  ghost predicate DistinctIds(resources: seq<Resource>) {
    forall i, j :: 0 <= i < j < |resources| ==> resources[i].id != resources[j].id
  }

  predicate Clashes(scopes: map<string, seq<Path>>, current: seq<Path>) {
    exists id :: id in scopes && !Apart(scopes[id], current)
  }

  lemma FileNext(resources: seq<Resource>, scopes: map<string, seq<Path>>, i: nat)
    requires i < |resources| && DistinctIds(resources) && Filed(resources, scopes, i)
    ensures Filed(resources, scopes[resources[i].id := DeclaredScopes(resources[i])], i + 1)
  {
    var next := scopes[resources[i].id := DeclaredScopes(resources[i])];
    forall j | 0 <= j < i + 1
      ensures FiledAt(resources, next, j)
    {
      if j < i { assert FiledAt(resources, scopes, j); }
    }
  }

  /** A clash with the dictionary is a clash with an earlier resource. */
  lemma ClashIsEarlier(site: Site, resources: seq<Resource>, scopes: map<string, seq<Path>>, i: nat)
    requires i < |resources| && Filed(resources, scopes, i) && Inventoried(site, resources, i)
    requires Admissible(site, resources, i)
    ensures !Clashes(scopes, DeclaredScopes(resources[i])) <==> Inventoried(site, resources, i + 1)
  {
    var current := DeclaredScopes(resources[i]);
    if Clashes(scopes, current) {
      var id :| id in scopes && !Apart(scopes[id], current);
      var j :| 0 <= j < i && resources[j].id == id;
      assert FiledAt(resources, scopes, j);
    } else {
      forall j | 0 <= j < i ensures Apart(DeclaredScopes(resources[j]), current) {
        assert FiledAt(resources, scopes, j);
      }
    }
  }

  /** Inspects every resource in turn; the identifiers were checked to be distinct beforehand. */
  method InventoryScopes(site: Site, resources: seq<Resource>) returns (r: Option<map<string, seq<Path>>>)
    requires DistinctIds(resources)
    ensures r.Some? <==> Inventoried(site, resources, |resources|)
    ensures r.Some? ==> Filed(resources, r.value, |resources|)
  {
    var scopes: map<string, seq<Path>> := map[];
    for i := 0 to |resources|
      invariant Inventoried(site, resources, i) && Filed(resources, scopes, i)
    {
      if !Admissible(site, resources, i) { return None; }
      ClashIsEarlier(site, resources, scopes, i);
      if Clashes(scopes, DeclaredScopes(resources[i])) {
        InventoryShrinks(site, resources, i + 1);
        return None;
      }
      FileNext(resources, scopes, i);
      scopes := scopes[resources[i].id := DeclaredScopes(resources[i])];
    }
    r := Some(scopes);
  }

  lemma InventoryShrinks(site: Site, resources: seq<Resource>, k: nat)
    requires k <= |resources|
    ensures Inventoried(site, resources, |resources|) ==> Inventoried(site, resources, k)
  {
  }

  // ---------- What releasing one resource can touch ----------

  /** Everything under the scopes of one resource goes. */
  function Released(t: Tree, scopes: seq<Path>): Tree {
    map p | p in t && !Covered(scopes, p) :: t[p]
  }

  predicate Covered(scopes: seq<Path>, p: Path) { exists k :: 0 <= k < |scopes| && scopes[k] <= p }

  /** Two prefixes of one path are prefixes of each other in one direction. */
  lemma PrefixesCompare(a: Path, b: Path, p: Path)
    ensures a <= p && b <= p ==> a <= b || b <= a
  {
    if a <= p && b <= p {
      if |a| <= |b| {
        assert b[..|a|] == a;
      } else {
        assert a[..|b|] == b;
      }
    }
  }

  /** Removing everything under one resource's scopes leaves every protected path and the whole contents
      of every other resource's scopes. */
  lemma ReleaseTouchesOnlyItsOwn(site: Site, resources: seq<Resource>, i: nat, t: Tree, p: Path)
    requires Inventoried(site, resources, |resources|) && i < |resources| && p in t
    requires || Protected(site, resources, i, p)
             || (exists j :: 0 <= j < |resources| && j != i && Covered(DeclaredScopes(resources[j]), p))
    ensures p in Released(t, DeclaredScopes(resources[i])) && Released(t, DeclaredScopes(resources[i]))[p] == t[p]
  {
    var mine := DeclaredScopes(resources[i]);
    assert Admissible(site, resources, i);
    forall a | 0 <= a < |mine|
      ensures !(mine[a] <= p)
    {
      if Protected(site, resources, i, p) {
        assert p in site.own ==> exists k :: 0 <= k < |site.own| && site.own[k] == p;
      } else {
        var j :| 0 <= j < |resources| && j != i && Covered(DeclaredScopes(resources[j]), p);
        var k :| 0 <= k < |DeclaredScopes(resources[j])| && DeclaredScopes(resources[j])[k] <= p;
        assert if j < i then Apart(DeclaredScopes(resources[j]), mine) else Apart(mine, DeclaredScopes(resources[j]));
        PrefixesCompare(mine[a], DeclaredScopes(resources[j])[k], p);
      }
    }
  }

  // ---------- What lies under a protected path ----------

  predicate Inside(scopes: seq<Path>, p: Path) { exists k :: 0 <= k < |scopes| && p <= scopes[k] }

  /** Everything under a protected path survives if no scope of the resource lies under that path. */
  lemma ContentsSurvive(site: Site, resources: seq<Resource>, i: nat, t: Tree, p: Path, q: Path)
    requires Inventoried(site, resources, |resources|) && i < |resources| && Protected(site, resources, i, p)
    requires !Inside(DeclaredScopes(resources[i]), p) && p <= q && q in t
    ensures q in Released(t, DeclaredScopes(resources[i])) && Released(t, DeclaredScopes(resources[i]))[q] == t[q]
  {
    var mine := DeclaredScopes(resources[i]);
    assert Admissible(site, resources, i);
    assert p in site.own ==> exists k :: 0 <= k < |site.own| && site.own[k] == p;
    forall a | 0 <= a < |mine| ensures !(mine[a] <= q) {
      assert !(mine[a] <= p);
      PrefixesCompare(mine[a], p, q);
    }
  }

  /** Otherwise the scope under it goes, if it is there: the check only asks whether a scope contains the path. */
  lemma ContentsLost(resources: seq<Resource>, i: nat, t: Tree, p: Path, k: nat)
    requires i < |resources| && k < |DeclaredScopes(resources[i])| && p <= DeclaredScopes(resources[i])[k]
    requires DeclaredScopes(resources[i])[k] in t
    ensures DeclaredScopes(resources[i])[k] !in Released(t, DeclaredScopes(resources[i]))
  {
    assert Covered(DeclaredScopes(resources[i]), DeclaredScopes(resources[i])[k]);
  }

  /** The two together: a protected path keeps all its contents, whatever they are, exactly when no scope lies
      under it. */
  lemma ContentsSurviveExactly(site: Site, resources: seq<Resource>, i: nat, p: Path)
    requires Inventoried(site, resources, |resources|) && i < |resources| && Protected(site, resources, i, p)
    ensures !Inside(DeclaredScopes(resources[i]), p) <==> forall t: Tree, q ::
      q in t && p <= q ==> q in Released(t, DeclaredScopes(resources[i]))
  {
    var mine := DeclaredScopes(resources[i]);
    if Inside(mine, p) {
      var k :| 0 <= k < |mine| && p <= mine[k];
      var t: Tree := map[mine[k] := Node(0, 0, false, true)];
      ContentsLost(resources, i, t, p, k);
      assert mine[k] in t && p <= mine[k];
    } else {
      forall t: Tree, q | q in t && p <= q
        ensures q in Released(t, mine)
      {
        ContentsSurvive(site, resources, i, t, p, q);
      }
    }
  }

  /** The paths of one site: both checkouts, evidence, handoff and configuration beside each other. */
  function FlatSite(root: Name, names: seq<Name>): Site {
    Site([root], seq(|names|, i requires 0 <= i < |names| => [root, names[i]]))
  }

  /** Such a scope passes the inventory: one record inside the evidence directory, with all five of the task's own
      paths protected. */
  lemma RecordInsideEvidence(root: Name, names: seq<Name>, record: Name, manifest: Name)
    requires |names| == 5 && manifest !in names
    ensures var site := FlatSite(root, names);
      var r := Resource("r", false, None, [root, manifest], [[root, names[2], record]]);
      && Inventoried(site, [r], 1) && Protected(site, [r], 0, [root, names[2]])
      && Inside(DeclaredScopes(r), [root, names[2]])
  {
    var site := FlatSite(root, names);
    var r := Resource("r", false, None, [root, manifest], [[root, names[2], record]]);
    var scope := [root, names[2], record];
    assert DeclaredScopes(r) == [scope] && [root] < scope && [root, names[2]] == scope[..2];
    assert forall k :: 0 <= k < |site.own| ==> |site.own[k]| == 2;
    assert !Holds(scope, site.own);
    assert Admissible(site, [r], 0);
    assert site.own[2] == [root, names[2]] && DeclaredScopes(r)[0] == scope && [root, names[2]] <= scope;
  }
}
