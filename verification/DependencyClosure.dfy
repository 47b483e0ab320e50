/** Resolution of the PowerCLI suite: a first-in-first-out closure over declared dependency floors,
    followed by a check of every edge that was seen. */
module DependencyClosure {
  import opened PythonText
  import opened VersionConstraints

  datatype Dependency = Dependency(name: string, constraint: string)

  /** What the gallery declares for one package, or `None` where reading it raises. */
  type Gallery = (string, string) -> Option<seq<Dependency>>

  datatype Edge = Edge(parent: string, dependency: Dependency)

  datatype Reason =
    | BadVersion
    | Unavailable(name: string)
    | NoFloor(edge: Edge)
    | TooManyModules(edge: Edge)
    | Incompatible(edge: Edge)

  datatype Resolution = Resolved(selected: map<string, string>) | Refused(reason: Reason)

  /** How each module was first discovered: by which parent, under which constraint, and how far from
      the suite. */
  datatype Discovery = Discovery(parent: map<string, string>, via: map<string, string>, level: map<string, nat>)

  const SUITE := "VCF.PowerCLI"
  const MODULE_LIMIT := 200

  predicate Declares(g: Gallery, selected: map<string, string>, e: Edge) {
    && e.parent in selected
    && g(e.parent, selected[e.parent]).Some?
    && e.dependency in g(e.parent, selected[e.parent]).value
  }

  /** Every selected module hangs off the suite and carries the floor of the edge that discovered it. */
  ghost predicate Explored(g: Gallery, version: string, selected: map<string, string>, w: Discovery) {
    && SUITE in selected && selected[SUITE] == version
    && w.level.Keys == selected.Keys && w.level[SUITE] == 0
    && (forall n :: n in selected && n != SUITE ==> DiscoveredBy(g, selected, w, n))
  }

  ghost predicate DiscoveredBy(g: Gallery, selected: map<string, string>, w: Discovery, n: string)
    requires n in selected && w.level.Keys == selected.Keys
  {
    && n in w.parent && n in w.via && w.parent[n] in selected
    && w.level[n] == w.level[w.parent[n]] + 1
    && Declares(g, selected, Edge(w.parent[n], Dependency(n, w.via[n])))
    && DependencyFloor(w.via[n]) == Some(selected[n])
  }

  /** All dependencies of `n` are selected, none of them further from the suite than necessary. */
  ghost predicate Expanded(g: Gallery, selected: map<string, string>, w: Discovery, n: string)
    requires n in selected && w.level.Keys == selected.Keys
  {
    && g(n, selected[n]).Some?
    && forall d :: d in g(n, selected[n]).value ==> d.name in selected && w.level[d.name] <= w.level[n] + 1
  }

  ghost predicate Closed(g: Gallery, selected: map<string, string>, w: Discovery)
    requires w.level.Keys == selected.Keys
  {
    forall n :: n in selected ==> Expanded(g, selected, w, n)
  }

  predicate Meets(selected: map<string, string>, d: Dependency) {
    d.name in selected && Satisfies(selected[d.name], d.constraint) == Some(true)
  }

  ghost predicate Compatible(g: Gallery, selected: map<string, string>) {
    forall e :: Declares(g, selected, e) ==> Meets(selected, e.dependency)
  }

  /** What a successful resolution guarantees. */
  ghost predicate Solves(g: Gallery, version: string, selected: map<string, string>, w: Discovery) {
    Explored(g, version, selected, w) && Closed(g, selected, w) && Compatible(g, selected)
  }

  // ---------- Consequences of a solution ----------

  /** A chain of declared dependencies starting at the suite. */
  ghost predicate Path(g: Gallery, selected: map<string, string>, p: seq<string>) {
    && |p| > 0 && p[0] == SUITE
    && forall i {:trigger p[i]} :: 0 < i < |p| ==> Linked(g, selected, p[i - 1], p[i])
  }

  ghost predicate Linked(g: Gallery, selected: map<string, string>, parent: string, child: string) {
    exists c :: Declares(g, selected, Edge(parent, Dependency(child, c)))
  }

  ghost predicate Reaches(g: Gallery, selected: map<string, string>, n: string) {
    exists p :: Path(g, selected, p) && p[|p| - 1] == n
  }

  lemma {:induction false} PathStaysSelected(g: Gallery, version: string, selected: map<string, string>, w: Discovery, p: seq<string>)
    requires Solves(g, version, selected, w) && Path(g, selected, p)
    ensures p[|p| - 1] in selected
  {
    if |p| == 1 {
    } else {
      PathStaysSelected(g, version, selected, w, p[..|p| - 1]);
      assert Linked(g, selected, p[|p| - 2], p[|p| - 1]);
      var c :| Declares(g, selected, Edge(p[|p| - 2], Dependency(p[|p| - 1], c)));
      assert Expanded(g, selected, w, p[|p| - 2]);
      assert Dependency(p[|p| - 1], c) in g(p[|p| - 2], selected[p[|p| - 2]]).value;
    }
  }

  lemma {:induction false} PathToModule(g: Gallery, version: string, selected: map<string, string>, w: Discovery, n: string)
    returns (p: seq<string>)
    requires Explored(g, version, selected, w) && n in selected
    ensures Path(g, selected, p) && p[|p| - 1] == n
    decreases w.level[n]
  {
    if n == SUITE {
      p := [SUITE];
    } else {
      assert DiscoveredBy(g, selected, w, n);
      var q := PathToModule(g, version, selected, w, w.parent[n]);
      p := q + [n];
      assert Linked(g, selected, q[|q| - 1], n);
    }
  }

  /** The selected modules are exactly those reachable from the suite. */
  lemma SelectsReachable(g: Gallery, version: string, selected: map<string, string>, w: Discovery, n: string)
    requires Solves(g, version, selected, w)
    ensures n in selected <==> Reaches(g, selected, n)
  {
    if n in selected {
      var p := PathToModule(g, version, selected, w, n);
    }
    if Reaches(g, selected, n) {
      var p :| Path(g, selected, p) && p[|p| - 1] == n;
      PathStaysSelected(g, version, selected, w, p);
    }
  }

  ghost predicate MeetsIncoming(g: Gallery, selected: map<string, string>, n: string, candidate: string) {
    forall e :: Declares(g, selected, e) && e.dependency.name == n ==>
      Satisfies(candidate, e.dependency.constraint) == Some(true)
  }

  /** Each module has the least version that meets every constraint declared on it. */
  lemma SelectsLeast(g: Gallery, version: string, selected: map<string, string>, w: Discovery, n: string, candidate: string)
    requires Solves(g, version, selected, w) && n in selected && n != SUITE
    ensures MeetsIncoming(g, selected, n, selected[n])
    ensures MeetsIncoming(g, selected, n, candidate) ==>
      VersionKey(candidate).Some? && VersionKey(selected[n]).Some?
      && AtMost(VersionKey(selected[n]).value, VersionKey(candidate).value)
  {
    assert forall e :: Declares(g, selected, e) ==> Meets(selected, e.dependency);
    assert DiscoveredBy(g, selected, w, n);
    var e := Edge(w.parent[n], Dependency(n, w.via[n]));
    if MeetsIncoming(g, selected, n, candidate) {
      assert Declares(g, selected, e);
      FloorIsLowerBound(candidate, w.via[n]);
    }
  }

  /** Two galleries that declare the same dependencies for every package, in any order. */
  ghost predicate Permuted(g: Gallery, h: Gallery) {
    forall n, v :: (g(n, v).Some? <==> h(n, v).Some?) && (g(n, v).Some? ==> multiset(g(n, v).value) == multiset(h(n, v).value))
  }

  /** Some package asks for `n` with floor `v`. */
  ghost predicate FloorIn(g: Gallery, n: string, v: string) {
    exists parent, u, c :: Asks(g, parent, u, Dependency(n, c)) && DependencyFloor(c) == Some(v)
  }

  predicate Asks(g: Gallery, parent: string, u: string, d: Dependency) { g(parent, u).Some? && d in g(parent, u).value }

  /** Spellings of one version that packages ask for, such as `1.2.3` and `1.2.3.0`, have one list of dependencies. */
  ghost predicate OneListPerVersion(g: Gallery) {
    forall n, v, u :: FloorIn(g, n, v) && FloorIn(g, n, u) && SameVersion(v, u) && g(n, v).Some? && g(n, u).Some? ==>
      multiset(g(n, v).value) == multiset(g(n, u).value)
  }

  /** Modules that two runs select at equal versions have the same dependencies in both. */
  ghost predicate Alike(g: Gallery, h: Gallery, s: map<string, string>, t: map<string, string>) {
    forall n :: Agree(s, t, n) && g(n, s[n]).Some? && h(n, t[n]).Some? ==>
      multiset(g(n, s[n]).value) == multiset(h(n, t[n]).value)
  }

  lemma AlikeSwap(g: Gallery, h: Gallery, s: map<string, string>, t: map<string, string>)
    requires Alike(g, h, s, t)
    ensures Alike(h, g, t, s)
  {
    forall n | Agree(t, s, n) ensures Agree(s, t, n) { }
  }

  /** A selected module other than the suite carries a floor that some package asks for. */
  lemma SelectedIsFloor(g: Gallery, version: string, s: map<string, string>, v: Discovery, n: string)
    requires Explored(g, version, s, v) && n in s && n != SUITE
    ensures FloorIn(g, n, s[n])
  {
    assert DiscoveredBy(g, s, v, n);
    assert Asks(g, v.parent[n], s[v.parent[n]], Dependency(n, v.via[n]));
  }

  lemma FloorInPermuted(g: Gallery, h: Gallery, n: string, v: string)
    requires Permuted(g, h) && FloorIn(h, n, v)
    ensures FloorIn(g, n, v)
  {
    var parent, u, c :| Asks(h, parent, u, Dependency(n, c)) && DependencyFloor(c) == Some(v);
    assert Dependency(n, c) in multiset(g(parent, u).value);
    assert Asks(g, parent, u, Dependency(n, c));
  }

  lemma PermutedAlikeAt(g: Gallery, h: Gallery, version: string, s: map<string, string>, v: Discovery,
                        t: map<string, string>, w: Discovery, n: string)
    requires Explored(g, version, s, v) && Explored(h, version, t, w) && Permuted(g, h) && OneListPerVersion(g)
    requires Agree(s, t, n) && g(n, s[n]).Some? && h(n, t[n]).Some?
    ensures multiset(g(n, s[n]).value) == multiset(h(n, t[n]).value)
  {
    assert g(n, t[n]).Some? && multiset(g(n, t[n]).value) == multiset(h(n, t[n]).value);
    if n != SUITE {
      SelectedIsFloor(g, version, s, v, n);
      SelectedIsFloor(h, version, t, w, n);
      FloorInPermuted(g, h, n, t[n]);
    }
  }

  lemma PermutedAlike(g: Gallery, h: Gallery, version: string, s: map<string, string>, v: Discovery,
                      t: map<string, string>, w: Discovery)
    requires Explored(g, version, s, v) && Explored(h, version, t, w) && Permuted(g, h) && OneListPerVersion(g)
    ensures Alike(g, h, s, t)
  {
    forall n | Agree(s, t, n) && g(n, s[n]).Some? && h(n, t[n]).Some?
      ensures multiset(g(n, s[n]).value) == multiset(h(n, t[n]).value)
    {
      PermutedAlikeAt(g, h, version, s, v, t, w, n);
    }
  }

  predicate SameVersion(v: string, u: string) {
    VersionKey(v).Some? && VersionKey(v) == VersionKey(u)
  }

  ghost predicate Agree(s: map<string, string>, t: map<string, string>, n: string) {
    n in s && n in t && SameVersion(s[n], t[n])
  }

  lemma DeclaredInBoth(g: Gallery, h: Gallery, s: map<string, string>, t: map<string, string>, e: Edge)
    requires Alike(g, h, s, t) && Declares(g, s, e) && Agree(s, t, e.parent) && h(e.parent, t[e.parent]).Some?
    ensures Declares(h, t, e)
  {
    var a, b := g(e.parent, s[e.parent]).value, h(e.parent, t[e.parent]).value;
    assert multiset(a) == multiset(b);
    assert e.dependency in multiset(a);
  }

  /** A module within reach of agreeing parents is selected by the other run, no further out and at
      least as new. */
  lemma ReachedByOther(g: Gallery, h: Gallery, version: string,
                       s: map<string, string>, v: Discovery, t: map<string, string>, w: Discovery, n: string)
    requires Solves(g, version, s, v) && Solves(h, version, t, w) && Alike(g, h, s, t)
    requires n in s && n != SUITE && DiscoveredBy(g, s, v, n)
    requires Agree(s, t, v.parent[n]) && w.level[v.parent[n]] <= v.level[v.parent[n]]
    ensures n in t && w.level[n] <= v.level[n]
    ensures VersionKey(s[n]).Some? && VersionKey(t[n]).Some?
    ensures AtMost(VersionKey(s[n]).value, VersionKey(t[n]).value)
  {
    var parent := v.parent[n];
    var d := Dependency(n, v.via[n]);
    assert Expanded(h, t, w, parent);
    DeclaredInBoth(g, h, s, t, Edge(parent, d));
    assert d in h(parent, t[parent]).value;
    assert Meets(t, d);
    FloorIsLowerBound(t[n], v.via[n]);
  }

  /** Modules up to a level agree between the two runs, at the same level. */
  ghost predicate AgreeUpTo(s: map<string, string>, v: Discovery, t: map<string, string>, w: Discovery, k: int)
    requires v.level.Keys == s.Keys && w.level.Keys == t.Keys
  {
    && (forall n :: n in s && v.level[n] <= k ==> Agree(s, t, n) && w.level[n] == v.level[n])
    && (forall n :: n in t && w.level[n] <= k ==> n in s && v.level[n] == w.level[n])
  }

  lemma AgreeAtNext(g: Gallery, h: Gallery, version: string,
                    s: map<string, string>, v: Discovery, t: map<string, string>, w: Discovery, k: nat, n: string)
    requires Solves(g, version, s, v) && Solves(h, version, t, w) && Alike(g, h, s, t)
    requires AgreeUpTo(s, v, t, w, k - 1) && n in s && n != SUITE && v.level[n] == k
    ensures Agree(s, t, n) && w.level[n] == k
  {
    assert DiscoveredBy(g, s, v, n);
    ReachedByOther(g, h, version, s, v, t, w, n);
    assert w.level[n] == k;
    assert DiscoveredBy(h, t, w, n);
    assert Agree(s, t, w.parent[n]);
    AlikeSwap(g, h, s, t);
    ReachedByOther(h, g, version, t, w, s, v, n);
    AtMostAntisymmetric(VersionKey(s[n]).value, VersionKey(t[n]).value);
  }

  lemma {:induction false} AgreeByLevel(g: Gallery, h: Gallery, version: string,
                     s: map<string, string>, v: Discovery, t: map<string, string>, w: Discovery, k: nat)
    requires Solves(g, version, s, v) && Solves(h, version, t, w) && Alike(g, h, s, t)
    requires VersionKey(version).Some?
    ensures AgreeUpTo(s, v, t, w, k)
  {
    if k == 0 {
    } else {
      AgreeByLevel(g, h, version, s, v, t, w, k - 1);
    }
    forall n | n in s && v.level[n] <= k
      ensures Agree(s, t, n) && w.level[n] == v.level[n]
    {
      if n != SUITE && v.level[n] == k {
        assert DiscoveredBy(g, s, v, n);
        AgreeAtNext(g, h, version, s, v, t, w, k, n);
      }
    }
    forall n | n in t && w.level[n] <= k
      ensures n in s && v.level[n] == w.level[n]
    {
      if n != SUITE && w.level[n] == k {
        assert DiscoveredBy(h, t, w, n);
        AgreeSwap(s, v, t, w, k - 1);
        AlikeSwap(g, h, s, t);
        AgreeAtNext(h, g, version, t, w, s, v, k, n);
      }
    }
  }

  lemma AgreeSwap(s: map<string, string>, v: Discovery, t: map<string, string>, w: Discovery, k: int)
    requires v.level.Keys == s.Keys && w.level.Keys == t.Keys && AgreeUpTo(s, v, t, w, k)
    ensures AgreeUpTo(t, w, s, v, k)
  {
  }

  /** The order in which the gallery lists dependencies does not matter: two successful resolutions
      select the same modules at the same versions. */
  lemma OrderIndependent(g: Gallery, h: Gallery, version: string,
                         s: map<string, string>, v: Discovery, t: map<string, string>, w: Discovery)
    requires Solves(g, version, s, v) && Solves(h, version, t, w) && Permuted(g, h) && OneListPerVersion(g)
    requires VersionKey(version).Some?
    ensures s.Keys == t.Keys
    ensures forall n :: n in s ==> VersionKey(s[n]).Some? && VersionKey(s[n]) == VersionKey(t[n])
  {
    PermutedAlike(g, h, version, s, v, t, w);
    AlikeAgree(g, h, version, s, v, t, w);
  }

  lemma AlikeAgree(g: Gallery, h: Gallery, version: string,
                   s: map<string, string>, v: Discovery, t: map<string, string>, w: Discovery)
    requires Solves(g, version, s, v) && Solves(h, version, t, w) && Alike(g, h, s, t)
    requires VersionKey(version).Some?
    ensures s.Keys == t.Keys
    ensures forall n :: n in s ==> VersionKey(s[n]).Some? && VersionKey(s[n]) == VersionKey(t[n])
  {
    forall n | n in s ensures Agree(s, t, n) { AgreeByLevel(g, h, version, s, v, t, w, v.level[n]); }
    forall n | n in t ensures n in s { AgreeByLevel(g, h, version, s, v, t, w, w.level[n]); }
  }

  // ---------- Why spellings matter ----------

  const LIBRARY := "VMware.X"
  const EXTRA := "VMware.A"

  /** The suite asks for a library under two spellings; only the first spelling of the library declares the extra module. */
  function TwoSpellings(first: string, second: string, swapped: bool): Gallery {
    (n, v) =>
      if n == SUITE then
        Some(if swapped then [Dependency(LIBRARY, second), Dependency(LIBRARY, first)]
             else [Dependency(LIBRARY, first), Dependency(LIBRARY, second)])
      else if n == LIBRARY && v == first then Some([Dependency(EXTRA, first)])
      else Some([])
  }

  /** Constraints that are plain floors and accept each other. */
  ghost predicate Interchangeable(first: string, second: string) {
    && first != second && DependencyFloor(first) == Some(first) && DependencyFloor(second) == Some(second)
    && Satisfies(first, first) == Satisfies(first, second) == Some(true)
    && Satisfies(second, first) == Satisfies(second, second) == Some(true)
  }

  function FirstSelection(first: string): map<string, string> { map[SUITE := first, LIBRARY := first, EXTRA := first] }

  function FirstDiscovery(first: string): Discovery {
    Discovery(map[LIBRARY := SUITE, EXTRA := LIBRARY], map[LIBRARY := first, EXTRA := first], map[SUITE := 0, LIBRARY := 1, EXTRA := 2])
  }

  lemma FirstExplored(first: string, second: string)
    requires Interchangeable(first, second)
    ensures Explored(TwoSpellings(first, second, false), first, FirstSelection(first), FirstDiscovery(first))
  {
    var g, s, v := TwoSpellings(first, second, false), FirstSelection(first), FirstDiscovery(first);
    assert DiscoveredBy(g, s, v, LIBRARY) && DiscoveredBy(g, s, v, EXTRA);
  }

  lemma FirstCompatible(first: string, second: string)
    requires Interchangeable(first, second)
    ensures Compatible(TwoSpellings(first, second, false), FirstSelection(first))
  {
    var g, s := TwoSpellings(first, second, false), FirstSelection(first);
    forall e | Declares(g, s, e) ensures Meets(s, e.dependency) {
      assert e.dependency in [Dependency(LIBRARY, first), Dependency(LIBRARY, second)] || e.dependency in [Dependency(EXTRA, first)];
    }
  }

  lemma WithoutSwap(first: string, second: string) returns (s: map<string, string>, v: Discovery)
    requires Interchangeable(first, second)
    ensures Solves(TwoSpellings(first, second, false), first, s, v) && s.Keys == {SUITE, LIBRARY, EXTRA}
  {
    var g := TwoSpellings(first, second, false);
    s, v := FirstSelection(first), FirstDiscovery(first);
    FirstExplored(first, second);
    FirstCompatible(first, second);
    assert Expanded(g, s, v, SUITE) && Expanded(g, s, v, LIBRARY) && Expanded(g, s, v, EXTRA);
  }

  lemma WithSwap(first: string, second: string) returns (t: map<string, string>, w: Discovery)
    requires Interchangeable(first, second)
    ensures Solves(TwoSpellings(first, second, true), first, t, w) && t.Keys == {SUITE, LIBRARY}
  {
    var h := TwoSpellings(first, second, true);
    t := map[SUITE := first, LIBRARY := second];
    w := Discovery(map[LIBRARY := SUITE], map[LIBRARY := second], map[SUITE := 0, LIBRARY := 1]);
    assert DiscoveredBy(h, t, w, LIBRARY);
    assert Expanded(h, t, w, SUITE) && Expanded(h, t, w, LIBRARY);
    assert Compatible(h, t);
  }

  lemma PermutedSpellings(first: string, second: string)
    ensures Permuted(TwoSpellings(first, second, false), TwoSpellings(first, second, true))
  {
  }

  lemma SpellingsListDifferently(first: string, second: string)
    requires Interchangeable(first, second) && SameVersion(first, second)
    ensures !OneListPerVersion(TwoSpellings(first, second, false))
  {
    var g := TwoSpellings(first, second, false);
    assert Asks(g, SUITE, first, Dependency(LIBRARY, first)) && Asks(g, SUITE, first, Dependency(LIBRARY, second));
    assert FloorIn(g, LIBRARY, first) && FloorIn(g, LIBRARY, second);
    var d := Dependency(EXTRA, first);
    assert multiset(g(LIBRARY, first).value)[d] == 1 && multiset(g(LIBRARY, second).value)[d] == 0;
  }

  /** Permuted lists, two successful resolutions, different modules. */
  ghost predicate OrderMatters(g: Gallery, h: Gallery, version: string) {
    exists s, v, t, w {:trigger Solves(g, version, s, v), Solves(h, version, t, w)} ::
      Permuted(g, h) && Solves(g, version, s, v) && Solves(h, version, t, w) && s.Keys != t.Keys
  }

  lemma DifferentModules(g: Gallery, h: Gallery, version: string, s: map<string, string>, v: Discovery,
                         t: map<string, string>, w: Discovery)
    requires Solves(g, version, s, v) && Solves(h, version, t, w) && s.Keys == {SUITE, LIBRARY, EXTRA} && t.Keys == {SUITE, LIBRARY}
    ensures Permuted(g, h) ==> OrderMatters(g, h, version)
  {
    assert EXTRA in s.Keys && EXTRA !in t.Keys;
  }

  lemma DifferentSelections(first: string, second: string, g: Gallery, h: Gallery)
    requires Interchangeable(first, second)
    requires g == TwoSpellings(first, second, false) && h == TwoSpellings(first, second, true)
    ensures Permuted(g, h) ==> OrderMatters(g, h, first)
  {
    var s, v := WithoutSwap(first, second);
    var t, w := WithSwap(first, second);
    DifferentModules(g, h, first, s, v, t, w);
  }

  lemma SpellingsReorder(first: string, second: string, g: Gallery, h: Gallery)
    requires Interchangeable(first, second)
    requires g == TwoSpellings(first, second, false) && h == TwoSpellings(first, second, true)
    ensures OrderMatters(g, h, first)
  {
    DifferentSelections(first, second, g, h);
    PermutedSpellings(first, second);
  }

  /** No two spellings of one version can be left out of the condition: for each pair there is a gallery that lists
      them differently and in which permuting one list changes which modules are selected. */
  lemma SpellingsMatter(first: string, second: string, g: Gallery, h: Gallery)
    requires first != second && SameVersion(first, second)
    requires g == TwoSpellings(first, second, false) && h == TwoSpellings(first, second, true)
    ensures OrderMatters(g, h, first) && !OneListPerVersion(g)
  {
    SpellingsInterchange(first, second);
    SpellingsReorder(first, second, g, h);
    SpellingsListDifferently(first, second);
  }

  lemma {:induction false} SplitDigits(digit: char, rest: string)
    requires digit != '.'
    ensures SplitOn([digit], '.') == [[digit]]
    ensures SplitOn([digit] + "." + rest, '.') == [[digit]] + SplitOn(rest, '.')
  {
    var s := [digit] + "." + rest;
    assert [digit][1..] == "" && s[1..] == "." + rest && ("." + rest)[1..] == rest;
    assert SplitOn("", '.') == [""];
    assert SplitOn("." + rest, '.') == [""] + SplitOn(rest, '.');
    assert [digit] + "" == [digit];
  }

  lemma OneDigit(digit: char)
    requires IsDigit(digit)
    ensures Numeric([digit]) && Numeral([digit]) == (digit - '0') as nat
  {
    assert [digit][..0] == "" && [digit][1..] == "";
  }

  lemma ThreeAndFourParts(a: char, b: char, c: char, d: char)
    requires IsDigit(a) && IsDigit(b) && IsDigit(c) && d == '0'
    ensures var short := [a] + "." + ([b] + "." + [c]);
      var long := [a] + "." + ([b] + "." + ([c] + "." + [d]));
      VersionKey(short).Some? && VersionKey(short) == VersionKey(long)
  {
    SplitDigits(d, "");
    SplitDigits(c, [d]);
    SplitDigits(b, [c]);
    SplitDigits(b, [c] + "." + [d]);
    SplitDigits(a, [b] + "." + [c]);
    SplitDigits(a, [b] + "." + ([c] + "." + [d]));
    OneDigit(a);
    OneDigit(b);
    OneDigit(c);
    OneDigit(d);
  }

  lemma VersionStartsWithDigit(v: string)
    requires VersionKey(v).Some?
    ensures v != "" && IsDigit(v[0])
  {
    var parts := SplitOn(v, '.');
    assert Numeric(parts[0]);
    if v != "" && v[0] != '.' { assert parts[0][0] == v[0]; }
  }

  lemma PlainFloor(v: string)
    requires VersionKey(v).Some?
    ensures DependencyFloor(v) == Some(v)
  {
    VersionStartsWithDigit(v);
  }

  lemma EqualKeysSatisfy(v: string, u: string)
    requires SameVersion(v, u)
    ensures Satisfies(v, u) == Some(true)
  {
    VersionStartsWithDigit(u);
  }

  /** Different spellings of one version are plain floors that accept each other. */
  lemma SpellingsInterchange(v: string, u: string)
    requires v != u && SameVersion(v, u)
    ensures Interchangeable(v, u)
  {
    PlainFloor(v);
    PlainFloor(u);
    EqualKeysSatisfy(v, v);
    EqualKeysSatisfy(v, u);
    EqualKeysSatisfy(u, v);
    EqualKeysSatisfy(u, u);
  }

  /** A failing input: the suite asks for one library as `1.2.3` and as `1.2.3.0`. */
  lemma SuiteWithTwoSpellings(g: Gallery, h: Gallery)
    requires g == TwoSpellings("1.2.3", "1.2.3.0", false) && h == TwoSpellings("1.2.3", "1.2.3.0", true)
    ensures SameVersion("1.2.3", "1.2.3.0") && OrderMatters(g, h, "1.2.3") && !OneListPerVersion(g)
  {
    assert "1.2.3" == ['1'] + "." + (['2'] + "." + ['3']);
    assert "1.2.3.0" == ['1'] + "." + (['2'] + "." + (['3'] + "." + ['0']));
    ThreeAndFourParts('1', '2', '3', '0');
    SpellingsMatter("1.2.3", "1.2.3.0", g, h);
  }

  // ---------- The resolution loop ----------

  /** The queue holds selected modules in discovery order: levels never fall along it and span at most
      one step, and every selected module that has left it is expanded. */
  ghost predicate Queued(g: Gallery, selected: map<string, string>, w: Discovery, pending: seq<string>)
    requires w.level.Keys == selected.Keys
  {
    && (forall i :: 0 <= i < |pending| ==> pending[i] in selected)
    && (forall i :: 0 <= i < |pending| ==> w.level[pending[i]] <= w.level[pending[0]] + 1)
    && (forall i, j :: 0 <= i < j < |pending| ==> w.level[pending[i]] <= w.level[pending[j]])
    && (forall n :: n in selected && n !in pending ==> Expanded(g, selected, w, n))
    && (forall n :: n in selected && n !in pending && |pending| > 0 ==> w.level[n] <= w.level[pending[0]])
  }

  /** While `name` is being expanded: the first `k` of its dependencies are selected. */
  ghost predicate Expanding(g: Gallery, selected: map<string, string>, w: Discovery, pending: seq<string>,
                            name: string, dependencies: seq<Dependency>, k: nat)
    requires w.level.Keys == selected.Keys
  {
    && name in selected && g(name, selected[name]) == Some(dependencies) && k <= |dependencies|
    && (forall i :: 0 <= i < |pending| ==>
          pending[i] in selected && w.level[name] <= w.level[pending[i]] <= w.level[name] + 1)
    && (forall i, j :: 0 <= i < j < |pending| ==> w.level[pending[i]] <= w.level[pending[j]])
    && (forall n :: n in selected && n !in pending && n != name ==> Expanded(g, selected, w, n))
    && (forall n :: n in selected && n !in pending ==> w.level[n] <= w.level[name])
    && (forall i :: 0 <= i < k ==>
          dependencies[i].name in selected && w.level[dependencies[i].name] <= w.level[name] + 1)
  }

  ghost function Extended(w: Discovery, name: string, d: Dependency): Discovery
    requires name in w.level
  {
    Discovery(w.parent[d.name := name], w.via[d.name := d.constraint], w.level[d.name := w.level[name] + 1])
  }

  lemma SelectKeepsExplored(g: Gallery, version: string, selected: map<string, string>, w: Discovery,
                            name: string, d: Dependency, floor: string)
    requires Explored(g, version, selected, w) && Declares(g, selected, Edge(name, d))
    requires d.name !in selected && DependencyFloor(d.constraint) == Some(floor)
    ensures Explored(g, version, selected[d.name := floor], Extended(w, name, d))
  {
    var s', w' := selected[d.name := floor], Extended(w, name, d);
    forall n | n in s' && n != SUITE
      ensures DiscoveredBy(g, s', w', n)
    {
      if n != d.name { assert DiscoveredBy(g, selected, w, n); }
    }
  }

  lemma SelectKeepsExpanding(g: Gallery, selected: map<string, string>, w: Discovery, pending: seq<string>,
                             name: string, dependencies: seq<Dependency>, k: nat, floor: string)
    requires w.level.Keys == selected.Keys && k < |dependencies| && dependencies[k].name !in selected
    requires Expanding(g, selected, w, pending, name, dependencies, k)
    ensures var d := dependencies[k];
      Expanding(g, selected[d.name := floor], Extended(w, name, d), pending + [d.name], name, dependencies, k + 1)
  {
    var d := dependencies[k];
    var s', w' := selected[d.name := floor], Extended(w, name, d);
    forall n | n in s' && n !in pending + [d.name] && n != name
      ensures Expanded(g, s', w', n)
    {
      assert n in selected && n !in pending;
      assert Expanded(g, selected, w, n);
    }
    forall n | n in s' && n !in pending + [d.name]
      ensures w'.level[n] <= w'.level[name]
    {
      assert n in selected && n !in pending;
    }
  }

  lemma FinishExpanding(g: Gallery, selected: map<string, string>, w: Discovery, pending: seq<string>,
                        name: string, dependencies: seq<Dependency>)
    requires w.level.Keys == selected.Keys
    requires Expanding(g, selected, w, pending, name, dependencies, |dependencies|)
    ensures Queued(g, selected, w, pending)
  {
    assert Expanded(g, selected, w, name);
  }

  /** `edges` lists declared edges only, and all edges of modules that have left the queue. */
  ghost predicate Recorded(g: Gallery, selected: map<string, string>, edges: seq<Edge>, waiting: seq<string>) {
    && (forall i :: 0 <= i < |edges| ==> Declares(g, selected, edges[i]))
    && (forall e :: Declares(g, selected, e) && e.parent !in waiting ==> e in edges)
  }

  lemma SelectKeepsRecorded(g: Gallery, selected: map<string, string>, edges: seq<Edge>, waiting: seq<string>,
                            n: string, floor: string)
    requires Recorded(g, selected, edges, waiting) && n !in selected
    ensures Recorded(g, selected[n := floor], edges, waiting + [n])
  {
    var s' := selected[n := floor];
    forall e | Declares(g, s', e) && e.parent !in waiting + [n]
      ensures e in edges
    {
      assert Declares(g, selected, e);
    }
  }

  lemma FinishRecording(g: Gallery, selected: map<string, string>, edges: seq<Edge>, pending: seq<string>,
                        name: string, dependencies: seq<Dependency>)
    requires Recorded(g, selected, edges, [name] + pending) && name in selected && g(name, selected[name]) == Some(dependencies)
    requires forall i :: 0 <= i < |dependencies| ==> Edge(name, dependencies[i]) in edges
    ensures Recorded(g, selected, edges, pending)
  {
    forall e | Declares(g, selected, e) && e.parent !in pending
      ensures e in edges
    {
      if e.parent == name { assert e == Edge(name, e.dependency) && e.dependency in dependencies; }
    }
  }

  ghost predicate Refusal(g: Gallery, version: string, reason: Reason, seen: map<string, string>, w: Discovery) {
    match reason
    case BadVersion => VersionKey(version).None?
    case Unavailable(n) => Explored(g, version, seen, w) && n in seen && g(n, seen[n]).None?
    case NoFloor(e) =>
      && Explored(g, version, seen, w) && Declares(g, seen, e)
      && e.dependency.name !in seen && DependencyFloor(e.dependency.constraint).None?
    case TooManyModules(e) =>
      && Explored(g, version, seen, w) && Declares(g, seen, e)
      && e.dependency.name !in seen && |seen| >= MODULE_LIMIT
    case Incompatible(e) =>
      && Explored(g, version, seen, w) && Closed(g, seen, w)
      && Declares(g, seen, e) && !Meets(seen, e.dependency)
  }

  /** State of the worklist between two modules. */
  ghost predicate Worklist(g: Gallery, version: string, selected: map<string, string>, w: Discovery,
                           pending: seq<string>, edges: seq<Edge>)
  {
    && Explored(g, version, selected, w) && |selected| <= MODULE_LIMIT
    && Queued(g, selected, w, pending) && Recorded(g, selected, edges, pending)
  }

  /** State of the worklist after `k` dependencies of `name`. */
  ghost predicate Visiting(g: Gallery, version: string, selected: map<string, string>, w: Discovery,
                           pending: seq<string>, edges: seq<Edge>, name: string, dependencies: seq<Dependency>, k: nat)
  {
    && Explored(g, version, selected, w) && |selected| <= MODULE_LIMIT
    && Expanding(g, selected, w, pending, name, dependencies, k)
    && Recorded(g, selected, edges, [name] + pending)
    && (forall i :: 0 <= i < k ==> Edge(name, dependencies[i]) in edges)
  }

  lemma RecordEdge(g: Gallery, version: string, selected: map<string, string>, w: Discovery,
                   pending: seq<string>, edges: seq<Edge>, name: string, dependencies: seq<Dependency>, k: nat)
    requires Visiting(g, version, selected, w, pending, edges, name, dependencies, k) && k < |dependencies|
    ensures Declares(g, selected, Edge(name, dependencies[k]))
    ensures Recorded(g, selected, edges + [Edge(name, dependencies[k])], [name] + pending)
    ensures forall i :: 0 <= i <= k ==> Edge(name, dependencies[i]) in edges + [Edge(name, dependencies[k])]
  {
  }

  lemma AlreadySelected(g: Gallery, version: string, selected: map<string, string>, w: Discovery,
                        pending: seq<string>, edges: seq<Edge>, name: string, dependencies: seq<Dependency>, k: nat)
    requires Visiting(g, version, selected, w, pending, edges, name, dependencies, k)
    requires k < |dependencies| && dependencies[k].name in selected
    ensures Visiting(g, version, selected, w, pending, edges + [Edge(name, dependencies[k])], name, dependencies, k + 1)
  {
    RecordEdge(g, version, selected, w, pending, edges, name, dependencies, k);
  }

  lemma NewlySelected(g: Gallery, version: string, selected: map<string, string>, w: Discovery, pending: seq<string>,
                      edges: seq<Edge>, name: string, dependencies: seq<Dependency>, k: nat, floor: string)
    requires Visiting(g, version, selected, w, pending, edges, name, dependencies, k)
    requires k < |dependencies| && dependencies[k].name !in selected && |selected| < MODULE_LIMIT
    requires DependencyFloor(dependencies[k].constraint) == Some(floor)
    ensures var d := dependencies[k];
      Visiting(g, version, selected[d.name := floor], Extended(w, name, d), pending + [d.name],
               edges + [Edge(name, d)], name, dependencies, k + 1)
  {
    var d := dependencies[k];
    RecordEdge(g, version, selected, w, pending, edges, name, dependencies, k);
    SelectKeepsExplored(g, version, selected, w, name, d, floor);
    SelectKeepsExpanding(g, selected, w, pending, name, dependencies, k, floor);
    SelectKeepsRecorded(g, selected, edges + [Edge(name, d)], [name] + pending, d.name, floor);
    assert [name] + pending + [d.name] == [name] + (pending + [d.name]);
  }

  lemma StartExpanding(g: Gallery, selected: map<string, string>, w: Discovery, pending: seq<string>,
                       name: string, rest: seq<string>, dependencies: seq<Dependency>)
    requires w.level.Keys == selected.Keys && Queued(g, selected, w, pending) && pending == [name] + rest
    requires name in selected && g(name, selected[name]) == Some(dependencies)
    ensures Expanding(g, selected, w, rest, name, dependencies, 0)
  {
    assert pending[0] == name;
    forall i | 0 <= i < |rest|
      ensures rest[i] in selected && w.level[name] <= w.level[rest[i]] <= w.level[name] + 1
    {
      assert rest[i] == pending[i + 1];
    }
    forall i, j | 0 <= i < j < |rest|
      ensures w.level[rest[i]] <= w.level[rest[j]]
    {
      assert rest[i] == pending[i + 1] && rest[j] == pending[j + 1];
    }
    forall n | n in selected && n !in rest
      ensures w.level[n] <= w.level[name] && (n != name ==> Expanded(g, selected, w, n))
    {
      assert n in pending <==> n == name || n in rest;
    }
  }

  lemma StartVisiting(g: Gallery, version: string, selected: map<string, string>, w: Discovery,
                      pending: seq<string>, edges: seq<Edge>)
    requires Worklist(g, version, selected, w, pending, edges) && |pending| > 0
    requires g(pending[0], selected[pending[0]]).Some?
    ensures Visiting(g, version, selected, w, pending[1..], edges, pending[0], g(pending[0], selected[pending[0]]).value, 0)
  {
    assert pending == [pending[0]] + pending[1..];
    StartExpanding(g, selected, w, pending, pending[0], pending[1..], g(pending[0], selected[pending[0]]).value);
  }

  lemma FinishVisiting(g: Gallery, version: string, selected: map<string, string>, w: Discovery,
                       pending: seq<string>, edges: seq<Edge>, name: string, dependencies: seq<Dependency>)
    requires Visiting(g, version, selected, w, pending, edges, name, dependencies, |dependencies|)
    ensures Worklist(g, version, selected, w, pending, edges)
  {
    FinishExpanding(g, selected, w, pending, name, dependencies);
    FinishRecording(g, selected, edges, pending, name, dependencies);
  }

  /** One dependency: recorded as an edge, and selected at its floor when it is new. */
  method Visit(g: Gallery, ghost version: string, name: string, dependencies: seq<Dependency>, k: nat,
               before: map<string, string>, waiting: seq<string>, known: seq<Edge>, ghost wBefore: Discovery)
    returns (failure: Option<Reason>, selected: map<string, string>, pending: seq<string>, edges: seq<Edge>, ghost w: Discovery)
    requires k < |dependencies| && Visiting(g, version, before, wBefore, waiting, known, name, dependencies, k)
    ensures failure.Some? ==> Refusal(g, version, failure.value, selected, w)
    ensures failure.None? ==> Visiting(g, version, selected, w, pending, edges, name, dependencies, k + 1)
    ensures |before| < |selected| || (selected == before && pending == waiting)
  {
    var d := dependencies[k];
    failure, selected, pending, w := None, before, waiting, wBefore;
    edges := known + [Edge(name, d)];
    if d.name in selected {
      AlreadySelected(g, version, before, wBefore, waiting, known, name, dependencies, k);
    } else {
      RecordEdge(g, version, before, wBefore, waiting, known, name, dependencies, k);
      if |selected| >= MODULE_LIMIT { failure := Some(TooManyModules(Edge(name, d))); return; }
      var floor := DependencyFloor(d.constraint);
      if floor.None? { failure := Some(NoFloor(Edge(name, d))); return; }
      NewlySelected(g, version, before, wBefore, waiting, known, name, dependencies, k, floor.value);
      selected, pending, w := selected[d.name := floor.value], pending + [d.name], Extended(w, name, d);
    }
  }

  /** The inner loop over the dependencies of one module. */
  method Expand(g: Gallery, ghost version: string, name: string, dependencies: seq<Dependency>,
                before: map<string, string>, waiting: seq<string>, known: seq<Edge>, ghost wBefore: Discovery)
    returns (failure: Option<Reason>, selected: map<string, string>, pending: seq<string>, edges: seq<Edge>, ghost w: Discovery)
    requires Visiting(g, version, before, wBefore, waiting, known, name, dependencies, 0)
    ensures failure.Some? ==> Refusal(g, version, failure.value, selected, w)
    ensures failure.None? ==> Worklist(g, version, selected, w, pending, edges)
    ensures |before| < |selected| || (selected == before && pending == waiting)
  {
    failure, selected, pending, edges, w := None, before, waiting, known, wBefore;
    for k := 0 to |dependencies|
      invariant Visiting(g, version, selected, w, pending, edges, name, dependencies, k)
      invariant failure.None?
      invariant |before| < |selected| || (selected == before && pending == waiting)
    {
      failure, selected, pending, edges, w := Visit(g, version, name, dependencies, k, selected, pending, edges, w);
      if failure.Some? { return; }
    }
    FinishVisiting(g, version, selected, w, pending, edges, name, dependencies);
  }

  /** The worklist loop; it ends because each round either selects a module or shortens the queue. */
  method CloseOver(g: Gallery, version: string)
    returns (failure: Option<Reason>, selected: map<string, string>, edges: seq<Edge>, ghost w: Discovery)
    requires VersionKey(version).Some?
    ensures failure.Some? ==> Refusal(g, version, failure.value, selected, w)
    ensures failure.None? ==> Worklist(g, version, selected, w, [], edges)
    ensures failure.None? ==> |selected| <= MODULE_LIMIT && forall e :: e in edges <==> Declares(g, selected, e)
  {
    failure, selected, edges, w := None, map[SUITE := version], [], Discovery(map[], map[], map[SUITE := 0]);
    var pending := [SUITE];
    while |pending| > 0
      invariant Worklist(g, version, selected, w, pending, edges) && failure.None?
      decreases MODULE_LIMIT - |selected|, |pending|
    {
      var name := pending[0];
      var dependencies := g(name, selected[name]);
      if dependencies.None? { failure := Some(Unavailable(name)); return; }
      StartVisiting(g, version, selected, w, pending, edges);
      failure, selected, pending, edges, w :=
        Expand(g, version, name, dependencies.value, selected, pending[1..], edges, w);
      if failure.Some? { return; }
    }
  }

  lemma AllEdgesMet(g: Gallery, version: string, selected: map<string, string>, w: Discovery, edges: seq<Edge>)
    requires Worklist(g, version, selected, w, [], edges)
    requires forall i :: 0 <= i < |edges| ==> Meets(selected, edges[i].dependency)
    ensures Solves(g, version, selected, w)
  {
    forall e | Declares(g, selected, e)
      ensures Meets(selected, e.dependency)
    {
      assert e in edges;
    }
  }

  lemma UnmetEdge(g: Gallery, version: string, selected: map<string, string>, w: Discovery, edges: seq<Edge>, i: nat)
    requires Worklist(g, version, selected, w, [], edges) && i < |edges| && !Meets(selected, edges[i].dependency)
    ensures Refusal(g, version, Incompatible(edges[i]), selected, w)
  {
    assert Expanded(g, selected, w, edges[i].parent);
  }

  /** Edge `i` is not met and all edges before it are. */
  ghost predicate FirstUnmet(selected: map<string, string>, edges: seq<Edge>, i: nat)
    requires i < |edges|
  {
    !Meets(selected, edges[i].dependency) && forall j :: 0 <= j < i ==> Meets(selected, edges[j].dependency)
  }

  /** The final check over every recorded edge. */
  method CheckEdges(g: Gallery, ghost version: string, selected: map<string, string>, ghost w: Discovery, edges: seq<Edge>)
    returns (failure: Option<Reason>)
    requires Worklist(g, version, selected, w, [], edges)
    ensures failure.None? ==> Solves(g, version, selected, w)
    ensures failure.Some? ==> Refusal(g, version, failure.value, selected, w)
    ensures failure.Some? ==> exists i :: 0 <= i < |edges| && failure.value == Incompatible(edges[i]) && FirstUnmet(selected, edges, i)
  {
    var passes := (e: Edge) => Meets(selected, e.dependency);
    var i := FirstFailing(edges, passes);
    if i < |edges| {
      UnmetEdge(g, version, selected, w, edges, i);
      assert forall j :: 0 <= j < i ==> passes(edges[j]);
      assert FirstUnmet(selected, edges, i);
      return Some(Incompatible(edges[i]));
    }
    assert forall j :: 0 <= j < |edges| ==> passes(edges[j]);
    AllEdgesMet(g, version, selected, w, edges);
    return None;
  }

  /** Index of the first item that fails a check, or the number of items. */
  method FirstFailing<T>(items: seq<T>, passes: T -> bool) returns (i: nat)
    ensures i <= |items| && forall j :: 0 <= j < i ==> passes(items[j])
    ensures i < |items| ==> !passes(items[i])
  {
    i := 0;
    while i < |items| && passes(items[i])
      invariant i <= |items| && forall j :: 0 <= j < i ==> passes(items[j])
    {
      i := i + 1;
    }
  }

  /** Resolves the suite, or says which gallery fact stands in the way. */
  method Resolve(g: Gallery, version: string)
    returns (r: Resolution, ghost w: Discovery, ghost seen: map<string, string>)
    ensures r.Resolved? ==> VersionKey(version).Some? && |r.selected| <= MODULE_LIMIT
    ensures r.Resolved? ==> Solves(g, version, r.selected, w)
    ensures r.Refused? ==> Refusal(g, version, r.reason, seen, w)
  {
    w, seen := Discovery(map[], map[], map[]), map[];
    if VersionKey(version).None? { return Refused(BadVersion), w, seen; }
    var failure, selected, edges;
    failure, selected, edges, w := CloseOver(g, version);
    seen := selected;
    if failure.None? { failure := CheckEdges(g, version, selected, w, edges); }
    r := if failure.Some? then Refused(failure.value) else Resolved(selected);
  }
}
