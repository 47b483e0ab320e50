/** Titles of completed tasks: every linked issue and pull request, as many words of the description as
    fit, and a completion marker, within a limit counted in UTF-16 units. */
module TaskTitle {
  import opened PythonText

  const TITLE_BUDGET := 60
  const SEPARATOR := '\U{B7}'
  const DONE_SUFFIX := [' ', SEPARATOR] + " Done"
  const JOINT := [' ', SEPARATOR, ' ']

  /** Length in UTF-16 code units. */
  function TitleUnits(s: string): nat {
    if s == "" then 0 else (if s[0] > '\U{FFFF}' then 2 else 1) + TitleUnits(s[1..])
  }

  // ---------- Numbers ----------

  ghost predicate Ascending(s: seq<nat>) { forall i, j :: 0 <= i < j < |s| ==> s[i] < s[j] }

  function Insert(s: seq<nat>, v: nat): (r: seq<nat>)
    requires Ascending(s)
    ensures Ascending(r) && r != [] && forall n :: n in r <==> n == v || n in s
    ensures s != [] ==> r[0] == if v < s[0] then v else s[0]
  {
    if s == [] then [v]
    else if v < s[0] then [v] + s
    else if v == s[0] then s
    else
      var rest := Insert(s[1..], v);
      assert forall n :: n in s <==> n == s[0] || n in s[1..];
      [s[0]] + rest
  }

  /** The distinct numbers in increasing order. */
  function SortedSet(values: seq<int>): (r: seq<nat>)
    requires forall i :: 0 <= i < |values| ==> values[i] > 0
    ensures Ascending(r) && forall n :: n in r <==> n in values
    ensures values != [] ==> r != []
  {
    if values == [] then []
    else
      var k := |values| - 1;
      assert forall n :: n in values <==> n == values[k] || n in values[..k];
      Insert(SortedSet(values[..k]), values[k])
  }

  /** `#a, #b, #c` without its first character. */
  function NumberList(ns: seq<nat>): string
    requires ns != []
  {
    if |ns| == 1 then Decimal(ns[0]) else Decimal(ns[0]) + ", #" + NumberList(ns[1..])
  }

  function Group(singular: string, ns: seq<nat>): string
    requires ns != []
  {
    (if |ns| == 1 then singular + " " else singular + "s ") + ("#" + NumberList(ns))
  }

  predicate Positive(values: seq<int>) { values != [] && forall i :: 0 <= i < |values| ==> values[i] > 0 }

  /** The identifiers segment, or `None` where the source raises. */
  function IdentityOf(issues: seq<int>, pulls: seq<int>, dependabot: bool): Option<string> {
    if !Positive(pulls) || (!Positive(issues) && !(issues == [] && dependabot)) then None
    else if issues == [] then Some(Group("PR", SortedSet(pulls)))
    else Some(Group("Issue", SortedSet(issues)) + JOINT + Group("PR", SortedSet(pulls)))
  }

  // ---------- Words ----------

  /** White-space separated words, `word` being the one under way. */
  function Words(s: string, word: string): seq<string>
    decreases |s|
  {
    if s == "" then (if word == "" then [] else [word])
    else if IsSpace(s[0]) then (if word == "" then [] else [word]) + Words(s[1..], "")
    else Words(s[1..], word + [s[0]])
  }

  predicate Solid(word: string) { word != "" && forall i :: 0 <= i < |word| ==> !IsSpace(word[i]) }

  ghost predicate AllSolid(words: seq<string>) { forall i :: 0 <= i < |words| ==> Solid(words[i]) }

  lemma {:induction false} WordsAreSolid(s: string, word: string)
    requires word == "" || Solid(word)
    ensures AllSolid(Words(s, word))
    decreases |s|
  {
    if s == "" {
    } else {
      if IsSpace(s[0]) { WordsAreSolid(s[1..], ""); } else { WordsAreSolid(s[1..], word + [s[0]]); }
    }
  }

  lemma {:induction false} WordThrough(word: string, done: string, rest: string)
    requires forall i :: 0 <= i < |word| ==> !IsSpace(word[i])
    ensures Words(word + rest, done) == Words(rest, done + word)
  {
    if word == "" {
      assert word + rest == rest && done + word == done;
    } else {
      assert (word + rest)[0] == word[0] && (word + rest)[1..] == word[1..] + rest;
      WordThrough(word[1..], done + [word[0]], rest);
      assert done + [word[0]] + word[1..] == done + word;
    }
  }

  /** Splitting the joined words again gives the same words, so splitting twice is splitting once. */
  lemma {:induction false} WordsOfJoin(words: seq<string>)
    requires AllSolid(words)
    ensures Words(Join(words, " "), "") == words
  {
    if words == [] {
    } else {
      var w, rest := words[0], words[1..];
      var tail := if rest == [] then "" else " " + Join(rest, " ");
      assert Join(words, " ") == w + tail;
      WordThrough(w, "", tail);
      assert "" + w == w;
      if rest != [] {
        assert tail[0] == ' ' && tail[1..] == Join(rest, " ");
        WordsOfJoin(rest);
      }
    }
  }

  // ---------- The title ----------

  /** The title that shows the first `k` words. */
  function Compose(identity: string, words: seq<string>, k: nat): string
    requires k <= |words|
  {
    identity + (if k > 0 then JOINT + Join(words[..k], " ") else "") + DONE_SUFFIX
  }

  /** The title fits and no longer word prefix does. */
  ghost predicate LongestFit(identity: string, words: seq<string>, k: nat) {
    && k <= |words| && TitleUnits(Compose(identity, words, k)) <= TITLE_BUDGET
    && forall j :: k < j <= |words| ==> TitleUnits(Compose(identity, words, j)) > TITLE_BUDGET
  }

  /** The loop that gives up words from the end. */
  method FitWords(identity: string, all: seq<string>) returns (words: seq<string>)
    requires TitleUnits(identity + DONE_SUFFIX) <= TITLE_BUDGET
    ensures |words| <= |all| && words == all[..|words|] && LongestFit(identity, all, |words|)
  {
    words := all;
    while |words| > 0 && TitleUnits(Compose(identity, words, |words|)) > TITLE_BUDGET
      invariant |words| <= |all| && words == all[..|words|]
      invariant forall j :: |words| < j <= |all| ==> TitleUnits(Compose(identity, all, j)) > TITLE_BUDGET
      decreases |words|
    {
      SamePrefix(identity, words, all);
      words := words[..|words| - 1];
    }
    SamePrefix(identity, words, all);
    if |words| == 0 { NoWords(identity, all); }
  }

  lemma SamePrefix(identity: string, words: seq<string>, all: seq<string>)
    requires |words| <= |all| && words == all[..|words|]
    ensures Compose(identity, words, |words|) == Compose(identity, all, |words|)
  {
    assert words[..|words|] == all[..|words|];
  }

  lemma NoWords(identity: string, all: seq<string>)
    ensures Compose(identity, all, 0) == identity + DONE_SUFFIX
  {
    assert identity + "" == identity;
  }

  /** `forbidden` recognises traceability and completion segments in a description. */
  method CompletedTaskTitle(text: string, issues: seq<int>, pulls: seq<int>, dependabot: bool, forbidden: string -> bool)
    returns (title: Option<string>, ghost shown: nat)
    ensures title.Some? <==>
      && IdentityOf(issues, pulls, dependabot).Some?
      && TitleUnits(IdentityOf(issues, pulls, dependabot).value + DONE_SUFFIX) <= TITLE_BUDGET
      && SEPARATOR !in Join(Words(text, ""), " ") && !forbidden(Join(Words(text, ""), " "))
    ensures title.Some? ==>
      var identity := IdentityOf(issues, pulls, dependabot).value;
      LongestFit(identity, Words(text, ""), shown) && title.value == Compose(identity, Words(text, ""), shown)
  {
    shown := 0;
    var identity := IdentityOf(issues, pulls, dependabot);
    if identity.None? || TitleUnits(identity.value + DONE_SUFFIX) > TITLE_BUDGET { return None, 0; }
    var description := Join(Words(text, ""), " ");
    if SEPARATOR in description || forbidden(description) { return None, 0; }
    var all := Words(description, "");
    assert all == Words(text, "") by { WordsAreSolid(text, ""); WordsOfJoin(Words(text, "")); }
    var words := FitWords(identity.value, all);
    shown := |words|;
    SamePrefix(identity.value, words, all);
    title := Some(Compose(identity.value, words, |words|));
  }

  // ---------- Titles identify their numbers ----------

  /** Text up to the first `mark` is determined. */
  lemma {:induction false} FirstMark(a: string, x: string, b: string, y: string, mark: char)
    requires mark !in a && mark !in b && a + [mark] + x == b + [mark] + y
    ensures a == b && x == y
  {
    var p, q := a + [mark] + x, b + [mark] + y;
    assert p[|a|] == mark && q[|b|] == mark;
    assert forall i :: 0 <= i < |a| ==> p[i] == a[i];
    assert forall i :: 0 <= i < |b| ==> q[i] == b[i];
    assert |a| == |b|;
    assert a == p[..|a|] && b == q[..|b|];
    assert x == p[|a| + 1..] && y == q[|b| + 1..];
  }

  lemma DigitsAvoid(n: nat, mark: char)
    requires !IsDigit(mark)
    ensures mark !in Decimal(n)
  {
  }

  lemma ListSplits(ns: seq<nat>)
    requires |ns| > 1
    ensures NumberList(ns) == Decimal(ns[0]) + [','] + (" #" + NumberList(ns[1..]))
  {
  }

  lemma {:induction false} NumberListInjective(ns: seq<nat>, ms: seq<nat>)
    requires ns != [] && ms != [] && NumberList(ns) == NumberList(ms)
    ensures ns == ms
  {
    DigitsAvoid(ns[0], ',');
    DigitsAvoid(ms[0], ',');
    if |ns| > 1 { ListSplits(ns); assert NumberList(ns)[|Decimal(ns[0])|] == ','; }
    if |ms| > 1 { ListSplits(ms); assert NumberList(ms)[|Decimal(ms[0])|] == ','; }
    if |ns| > 1 && |ms| > 1 {
      var x, y := " #" + NumberList(ns[1..]), " #" + NumberList(ms[1..]);
      FirstMark(Decimal(ns[0]), x, Decimal(ms[0]), y, ',');
      assert x[2..] == NumberList(ns[1..]) && y[2..] == NumberList(ms[1..]);
      NumberListInjective(ns[1..], ms[1..]);
      DecimalInjective(ns[0], ms[0]);
      assert ns == [ns[0]] + ns[1..] && ms == [ms[0]] + ms[1..];
    } else {
      assert |ns| == 1 && |ms| == 1;
      DecimalInjective(ns[0], ms[0]);
    }
  }

  lemma GroupInjective(singular: string, ns: seq<nat>, ms: seq<nat>)
    requires ns != [] && ms != [] && '#' !in singular && Group(singular, ns) == Group(singular, ms)
    ensures ns == ms
  {
    var a := if |ns| == 1 then singular + " " else singular + "s ";
    var b := if |ms| == 1 then singular + " " else singular + "s ";
    assert Group(singular, ns) == a + ['#'] + NumberList(ns);
    assert Group(singular, ms) == b + ['#'] + NumberList(ms);
    FirstMark(a, NumberList(ns), b, NumberList(ms), '#');
    NumberListInjective(ns, ms);
  }

  lemma {:induction false} ListAvoidsSeparator(ns: seq<nat>)
    requires ns != []
    ensures SEPARATOR !in NumberList(ns)
  {
    DigitsAvoid(ns[0], SEPARATOR);
    if |ns| > 1 { ListAvoidsSeparator(ns[1..]); }
  }

  lemma GroupAvoidsSeparator(singular: string, ns: seq<nat>)
    requires ns != [] && SEPARATOR !in singular
    ensures SEPARATOR !in Group(singular, ns)
  {
    ListAvoidsSeparator(ns);
  }

  /** What follows the identifiers starts with the separator, with or without words. */
  function Ending(words: seq<string>, k: nat): string
    requires k <= |words|
  {
    if k > 0 then " " + Join(words[..k], " ") + DONE_SUFFIX else " Done"
  }

  lemma ComposeEnds(identity: string, words: seq<string>, k: nat)
    requires k <= |words|
    ensures Compose(identity, words, k) == (identity + " ") + [SEPARATOR] + Ending(words, k)
  {
    var middle := if k > 0 then JOINT + Join(words[..k], " ") else "";
    assert middle + DONE_SUFFIX == " " + [SEPARATOR] + Ending(words, k);
    assert identity + middle + DONE_SUFFIX == identity + (middle + DONE_SUFFIX);
    assert identity + (" " + [SEPARATOR] + Ending(words, k)) == (identity + " ") + [SEPARATOR] + Ending(words, k);
  }

  /** The numbers a title was made from, with an empty issue list when there are none. */
  ghost function Linked(values: seq<int>): (r: seq<nat>)
    requires values == [] || Positive(values)
  {
    SortedSet(values)
  }

  /** A group is determined by any text that continues it with the separator. */
  lemma GroupThenMark(singular: string, ns: seq<nat>, end: string, ms: seq<nat>, end': string)
    requires ns != [] && ms != [] && SEPARATOR !in singular && '#' !in singular
    requires (Group(singular, ns) + " ") + [SEPARATOR] + end == (Group(singular, ms) + " ") + [SEPARATOR] + end'
    ensures ns == ms && end == end'
  {
    var g, h := Group(singular, ns), Group(singular, ms);
    GroupAvoidsSeparator(singular, ns);
    GroupAvoidsSeparator(singular, ms);
    FirstMark(g + " ", end, h + " ", end', SEPARATOR);
    assert (g + " ")[..|g|] == g && (h + " ")[..|h|] == h;
    GroupInjective(singular, ns, ms);
  }

  /** The identifiers segment up to its last separator, in the two shapes it takes. */
  lemma IdentityShape(issues: seq<int>, pulls: seq<int>, d: bool, end: string)
    requires IdentityOf(issues, pulls, d).Some?
    ensures var t := (IdentityOf(issues, pulls, d).value + " ") + [SEPARATOR] + end;
      var rest := (Group("PR", SortedSet(pulls)) + " ") + [SEPARATOR] + end;
      && t != "" && t[0] == (if issues == [] then 'P' else 'I')
      && t == if issues == [] then rest else (Group("Issue", SortedSet(issues)) + " ") + [SEPARATOR] + (" " + rest)
  {
    var p := Group("PR", SortedSet(pulls));
    var rest := (p + " ") + [SEPARATOR] + end;
    if issues != [] {
      Reassociate(Group("Issue", SortedSet(issues)), p, end);
    }
  }

  lemma Reassociate(g: string, p: string, end: string)
    ensures ((g + JOINT + p) + " ") + [SEPARATOR] + end == (g + " ") + [SEPARATOR] + (" " + ((p + " ") + [SEPARATOR] + end))
  {
  }

  lemma IdentityInjective(issues: seq<int>, pulls: seq<int>, d: bool, end: string,
                          issues': seq<int>, pulls': seq<int>, d': bool, end': string)
    requires IdentityOf(issues, pulls, d).Some? && IdentityOf(issues', pulls', d').Some?
    requires (IdentityOf(issues, pulls, d).value + " ") + [SEPARATOR] + end
          == (IdentityOf(issues', pulls', d').value + " ") + [SEPARATOR] + end'
    ensures Linked(issues) == Linked(issues') && Linked(pulls) == Linked(pulls')
  {
    IdentityShape(issues, pulls, d, end);
    IdentityShape(issues', pulls', d', end');
    var rest := (Group("PR", SortedSet(pulls)) + " ") + [SEPARATOR] + end;
    var rest' := (Group("PR", SortedSet(pulls')) + " ") + [SEPARATOR] + end';
    if issues != [] {
      GroupThenMark("Issue", SortedSet(issues), " " + rest, SortedSet(issues'), " " + rest');
      assert (" " + rest)[1..] == rest && (" " + rest')[1..] == rest';
    }
    GroupThenMark("PR", SortedSet(pulls), end, SortedSet(pulls'), end');
  }

  /** Equal titles link the same issues and the same pull requests, whatever their descriptions. */
  lemma TitlesIdentify(issues: seq<int>, pulls: seq<int>, d: bool, words: seq<string>, k: nat,
                       issues': seq<int>, pulls': seq<int>, d': bool, words': seq<string>, k': nat)
    requires IdentityOf(issues, pulls, d).Some? && IdentityOf(issues', pulls', d').Some?
    requires k <= |words| && k' <= |words'|
    requires Compose(IdentityOf(issues, pulls, d).value, words, k) == Compose(IdentityOf(issues', pulls', d').value, words', k')
    ensures forall n :: n in issues <==> n in issues'
    ensures forall n :: n in pulls <==> n in pulls'
  {
    ComposeEnds(IdentityOf(issues, pulls, d).value, words, k);
    ComposeEnds(IdentityOf(issues', pulls', d').value, words', k');
    IdentityInjective(issues, pulls, d, Ending(words, k), issues', pulls', d', Ending(words', k'));
    forall n: int ensures (n in issues <==> n in issues') && (n in pulls <==> n in pulls') {
      assert n in issues <==> n in SortedSet(issues);
      assert n in issues' <==> n in SortedSet(issues');
      assert n in pulls <==> n in SortedSet(pulls);
      assert n in pulls' <==> n in SortedSet(pulls');
    }
  }
}
