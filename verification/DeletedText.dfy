/** Removal of struck-through text: delimiters are paired scope by scope, the `~` pairs become
    intervals, the intervals are merged, and every covered character except line breaks is dropped. */
module DeletedText {
  import opened DelimiterPairing
  import opened PythonText

  // ---------- Pairing across link scopes ----------

  /** The indices below `k` whose delimiter lies in `scope`, ascending. */
  function ScopeIndices(d: seq<Delimiter>, scope: LinkScope, k: nat): (r: seq<nat>)
    requires k <= |d|
    ensures forall i :: 0 <= i < |r| ==> r[i] < k && d[r[i]].scope == scope
  {
    if k == 0 then []
    else if d[k - 1].scope == scope then ScopeIndices(d, scope, k - 1) + [k - 1]
    else ScopeIndices(d, scope, k - 1)
  }

  lemma {:induction false} ScopeIndicesAscend(d: seq<Delimiter>, scope: LinkScope, k: nat, i: nat, j: nat)
    requires k <= |d| && i < |ScopeIndices(d, scope, k)| && j < |ScopeIndices(d, scope, k)|
    ensures i < j <==> ScopeIndices(d, scope, k)[i] < ScopeIndices(d, scope, k)[j]
    ensures i == j <==> ScopeIndices(d, scope, k)[i] == ScopeIndices(d, scope, k)[j]
  {
    var shorter := ScopeIndices(d, scope, k - 1);
    if i < |shorter| && j < |shorter| {
      ScopeIndicesAscend(d, scope, k - 1, i, j);
    }
  }

  function Select(d: seq<Delimiter>, indices: seq<nat>): (r: seq<Delimiter>)
    requires forall i :: 0 <= i < |indices| ==> indices[i] < |d|
    ensures |r| == |indices|
    ensures forall i :: 0 <= i < |r| ==> r[i] == d[indices[i]]
  {
    seq(|indices|, i requires 0 <= i < |indices| => d[indices[i]])
  }

  lemma {:induction false} ScopePrefix(d: seq<Delimiter>, scope: LinkScope, j: nat, k: nat)
    requires j <= k <= |d|
    ensures ScopeIndices(d, scope, j) <= ScopeIndices(d, scope, k)
  {
    if j == k {
    } else {
      ScopePrefix(d, scope, j, k - 1);
    }
  }

  /** The position of `g` among the delimiters of its own scope. */
  ghost function Rank(d: seq<Delimiter>, g: nat): nat
    requires g < |d|
  {
    |ScopeIndices(d, d[g].scope, g)|
  }

  /** `g` sits in its scope's list right after the earlier members of that scope. */
  lemma ScopePosition(d: seq<Delimiter>, g: nat)
    requires g < |d|
    ensures var idx := ScopeIndices(d, d[g].scope, |d|);
      Rank(d, g) < |idx| && idx[Rank(d, g)] == g
  {
    ScopePrefix(d, d[g].scope, g + 1, |d|);
  }

  ghost function Lifted(indices: seq<nat>, c: int): int
    requires c < |indices|
  {
    if c < 0 then -1 else indices[c]
  }

  /** The closer the cache-free reference gives to delimiter `g` within its own link scope. */
  ghost function ReferenceCloser(d: seq<Delimiter>, g: nat): int
    requires g < |d|
  {
    var idx := ScopeIndices(d, d[g].scope, |d|);
    ScopePosition(d, g);
    ReferenceWellPaired(Select(d, idx), |idx|);
    Lifted(idx, Reference(Select(d, idx), |idx|)[Rank(d, g)])
  }

  ghost function ReferenceMatching(d: seq<Delimiter>): (m: Matching)
    ensures |m| == |d|
  {
    seq(|d|, g requires 0 <= g < |d| => ReferenceCloser(d, g))
  }

  /** Pairs stay within one link scope and one marker, no delimiter is used twice, and pairs of one
      scope never cross. */
  ghost predicate ScopedPairing(d: seq<Delimiter>, m: Matching) {
    && |m| == |d|
    && (forall o :: 0 <= o < |m| && m[o] != -1 ==> Joined(d, o, m[o], |d|) && d[o].scope == d[m[o]].scope)
    && (forall o :: 0 <= o < |m| && m[o] != -1 ==> o !in m)
    && (forall o, p :: 0 <= o < p < |m| && m[o] != -1 && m[p] != -1 ==>
          m[o] != m[p] && (d[o].scope == d[p].scope && p < m[o] ==> m[p] < m[o]))
  }

  lemma LocalView(d: seq<Delimiter>, g: nat) returns (idx: seq<nat>, local: Matching, at: nat)
    requires g < |d|
    ensures idx == ScopeIndices(d, d[g].scope, |d|) && local == Reference(Select(d, idx), |idx|)
    ensures WellPaired(Select(d, idx), local, |idx|)
    ensures at < |idx| && idx[at] == g && ReferenceMatching(d)[g] == Lifted(idx, local[at])
  {
    idx := ScopeIndices(d, d[g].scope, |d|);
    local := Reference(Select(d, idx), |idx|);
    at := Rank(d, g);
    ScopePosition(d, g);
    ReferenceWellPaired(Select(d, idx), |idx|);
  }

  lemma ReferencePairsJoin(d: seq<Delimiter>, o: nat)
    requires o < |d| && ReferenceMatching(d)[o] != -1
    ensures var c := ReferenceMatching(d)[o]; Joined(d, o, c, |d|) && d[o].scope == d[c].scope
  {
    var idx, local, at := LocalView(d, o);
    assert Joined(Select(d, idx), at, local[at], |idx|);
    ScopeIndicesAscend(d, d[o].scope, |d|, at, local[at]);
  }

  lemma ReferencePairsNest(d: seq<Delimiter>, o: nat, p: nat)
    requires o < p < |d| && d[o].scope == d[p].scope
    requires ReferenceMatching(d)[o] != -1 && ReferenceMatching(d)[p] != -1
    ensures var m := ReferenceMatching(d); m[o] != m[p] && (p < m[o] ==> m[p] < m[o])
  {
    var idx, local, at := LocalView(d, o);
    var _, _, below := LocalView(d, p);
    ScopeIndicesAscend(d, d[o].scope, |d|, at, below);
    ScopeIndicesAscend(d, d[o].scope, |d|, below, local[at]);
    ScopeIndicesAscend(d, d[o].scope, |d|, local[below], local[at]);
    assert Nests(local, at);
  }

  lemma ReferenceOpenerIsNoCloser(d: seq<Delimiter>, o: nat, p: nat)
    requires o < |d| && p < |d| && ReferenceMatching(d)[o] != -1
    ensures ReferenceMatching(d)[p] != o
  {
    var idx, local, at := LocalView(d, o);
    if ReferenceMatching(d)[p] != -1 {
      ReferencePairsJoin(d, p);
      if d[p].scope == d[o].scope {
        var _, _, from := LocalView(d, p);
        assert at !in local;
        assert local[from] in local;
        ScopeIndicesAscend(d, d[o].scope, |d|, local[from], at);
      }
    }
  }

  lemma ReferenceIsScoped(d: seq<Delimiter>)
    ensures ScopedPairing(d, ReferenceMatching(d))
  {
    var m := ReferenceMatching(d);
    forall o | 0 <= o < |m| && m[o] != -1
      ensures Joined(d, o, m[o], |d|) && d[o].scope == d[m[o]].scope && o !in m
    {
      ReferencePairsJoin(d, o);
      forall p | 0 <= p < |m| ensures m[p] != o { ReferenceOpenerIsNoCloser(d, o, p); }
    }
    forall o, p | 0 <= o < p < |m| && m[o] != -1 && m[p] != -1
      ensures m[o] != m[p] && (d[o].scope == d[p].scope && p < m[o] ==> m[p] < m[o])
    {
      if d[o].scope == d[p].scope {
        ReferencePairsNest(d, o, p);
      } else {
        ReferencePairsJoin(d, o);
        ReferencePairsJoin(d, p);
      }
    }
  }

  ghost predicate Grouped(d: seq<Delimiter>, order: seq<LinkScope>, groups: map<LinkScope, seq<nat>>, k: nat)
    requires k <= |d|
  {
    && (forall g :: 0 <= g < k ==> d[g].scope in order)
    && (forall s :: s in groups <==> s in order)
    && (forall s :: s in groups ==> ListsScope(d, groups[s], s, k))
  }

  ghost predicate ListsScope(d: seq<Delimiter>, indices: seq<nat>, scope: LinkScope, k: nat)
    requires k <= |d|
  {
    indices == ScopeIndices(d, scope, k)
  }

  lemma {:induction false} UnseenScope(d: seq<Delimiter>, scope: LinkScope, k: nat)
    requires k <= |d| && forall g :: 0 <= g < k ==> d[g].scope != scope
    ensures ScopeIndices(d, scope, k) == []
  {
    if k == 0 {
    } else {
      UnseenScope(d, scope, k - 1);
    }
  }

  function NextOrder(order: seq<LinkScope>, groups: map<LinkScope, seq<nat>>, scope: LinkScope): seq<LinkScope> {
    if scope in groups then order else order + [scope]
  }

  function NextGroups(groups: map<LinkScope, seq<nat>>, scope: LinkScope, k: nat): map<LinkScope, seq<nat>> {
    groups[scope := (if scope in groups then groups[scope] else []) + [k]]
  }

  lemma GroupStep(d: seq<Delimiter>, order: seq<LinkScope>, groups: map<LinkScope, seq<nat>>, k: nat)
    requires k < |d| && Grouped(d, order, groups, k)
    ensures Grouped(d, NextOrder(order, groups, d[k].scope), NextGroups(groups, d[k].scope, k), k + 1)
  {
    var next := NextGroups(groups, d[k].scope, k);
    if d[k].scope !in groups { UnseenScope(d, d[k].scope, k); }
    forall s | s in next
      ensures ListsScope(d, next[s], s, k + 1)
    {
      assert s in groups ==> ListsScope(d, groups[s], s, k);
    }
  }

  /** Groups delimiter indices by link scope, keeping the order in which scopes first appear. */
  method GroupByScope(d: seq<Delimiter>) returns (order: seq<LinkScope>, groups: map<LinkScope, seq<nat>>)
    ensures Grouped(d, order, groups, |d|)
  {
    order, groups := [], map[];
    for k := 0 to |d|
      invariant Grouped(d, order, groups, k)
    {
      GroupStep(d, order, groups, k);
      order, groups := NextOrder(order, groups, d[k].scope), NextGroups(groups, d[k].scope, k);
    }
  }

  /** Writes one scope's local pairing back under global indices. */
  method WriteBack(d: seq<Delimiter>, before: Matching, scope: LinkScope, indices: seq<nat>, local: Matching)
    returns (matched: Matching)
    requires |before| == |d| && indices == ScopeIndices(d, scope, |d|)
    requires local == Reference(Select(d, indices), |indices|)
    ensures |matched| == |d|
    ensures forall g :: 0 <= g < |d| && d[g].scope != scope ==> matched[g] == before[g]
    ensures forall g :: 0 <= g < |d| && d[g].scope == scope ==> Settled(d, matched, g)
  {
    matched := before;
    ReferenceWellPaired(Select(d, indices), |indices|);
    for i := 0 to |indices|
      invariant |matched| == |d|
      invariant forall g :: 0 <= g < |d| && d[g].scope != scope ==> matched[g] == before[g]
      invariant forall g :: 0 <= g < |d| && d[g].scope == scope && Rank(d, g) < i ==> Settled(d, matched, g)
    {
      var closer := if local[i] < 0 then -1 else indices[local[i]];
      SettleNext(d, matched, scope, i);
      matched := matched[indices[i] := closer];
    }
    forall g | 0 <= g < |d| && d[g].scope == scope
      ensures Settled(d, matched, g)
    {
      ScopePosition(d, g);
    }
  }

  lemma SettleNext(d: seq<Delimiter>, m: Matching, scope: LinkScope, i: nat)
    requires |m| == |d| && i < |ScopeIndices(d, scope, |d|)|
    requires forall g :: 0 <= g < |d| && d[g].scope == scope && Rank(d, g) < i ==> Settled(d, m, g)
    ensures var next := ScopeIndices(d, scope, |d|)[i];
      var m' := m[next := ReferenceCloser(d, next)];
      forall g :: 0 <= g < |d| && d[g].scope == scope && Rank(d, g) <= i ==> Settled(d, m', g)
    ensures var idx := ScopeIndices(d, scope, |d|);
      var local := Reference(Select(d, idx), |idx|);
      local[i] < |idx| && ReferenceCloser(d, idx[i]) == Lifted(idx, local[i])
  {
    RankOf(d, scope, i);
    var idx := ScopeIndices(d, scope, |d|);
    ReferenceWellPaired(Select(d, idx), |idx|);
    forall g | 0 <= g < |d| && d[g].scope == scope && Rank(d, g) <= i
      ensures Rank(d, g) < i || g == idx[i]
    {
      ScopePosition(d, g);
    }
  }

  lemma RankOf(d: seq<Delimiter>, scope: LinkScope, i: nat)
    requires i < |ScopeIndices(d, scope, |d|)|
    ensures Rank(d, ScopeIndices(d, scope, |d|)[i]) == i
  {
    var g := ScopeIndices(d, scope, |d|)[i];
    ScopePosition(d, g);
    ScopeIndicesAscend(d, scope, |d|, i, Rank(d, g));
  }

  /** Pairs every scope in turn. */
  method MatchDelimiters(d: seq<Delimiter>) returns (matched: Matching)
    ensures matched == ReferenceMatching(d)
  {
    matched := seq(|d|, _ => -1);
    var order, groups := GroupByScope(d);
    for k := 0 to |order|
      invariant |matched| == |d|
      invariant forall g :: 0 <= g < |d| && d[g].scope in order[..k] ==> Settled(d, matched, g)
    {
      assert order[..k + 1] == order[..k] + [order[k]];
      var indices := groups[order[k]];
      var local := PairScope(Select(d, indices));
      matched := WriteBack(d, matched, order[k], indices, local);
    }
    assert order[..|order|] == order;
    assert forall g :: 0 <= g < |d| ==> Settled(d, matched, g);
  }

  ghost predicate Settled(d: seq<Delimiter>, m: Matching, g: nat)
    requires |m| == |d| && g < |d|
  {
    m[g] == ReferenceCloser(d, g)
  }

  // ---------- Intervals ----------

  datatype Span = Span(start: nat, end: nat)

  ghost predicate Covers(spans: seq<Span>, p: int) {
    exists i :: 0 <= i < |spans| && spans[i].start <= p < spans[i].end
  }

  /** Delimiters as the collection loop emits them: left to right, without overlap, inside the text. */
  ghost predicate Collected(d: seq<Delimiter>, size: nat) {
    && (forall i :: 0 <= i < |d| ==> d[i].start < d[i].end <= size)
    && (forall i, j :: 0 <= i < j < |d| ==> d[i].end <= d[j].start)
  }

  /** The span from opener to closer of each `~` pair, in opener order. */
  ghost function TildeSpans(d: seq<Delimiter>, m: Matching, k: nat): (r: seq<Span>)
    requires |m| == |d| && k <= |d| && ScopedPairing(d, m)
  {
    if k == 0 then []
    else if m[k - 1] >= 0 && d[k - 1].marker == '~'
    then TildeSpans(d, m, k - 1) + [Span(d[k - 1].start, d[m[k - 1]].end)]
    else TildeSpans(d, m, k - 1)
  }

  ghost predicate Ascending(spans: seq<Span>, size: nat) {
    && (forall i :: 0 <= i < |spans| ==> spans[i].start < spans[i].end <= size)
    && (forall i, j :: 0 <= i < j < |spans| ==> spans[i].start < spans[j].start)
  }

  /** Opener order is already start order, so the source's sort leaves the list as it is. */
  lemma {:induction false} TildeSpansAscend(d: seq<Delimiter>, m: Matching, k: nat, size: nat)
    requires ScopedPairing(d, m) && k <= |d| && Collected(d, size)
    ensures Ascending(TildeSpans(d, m, k), size)
    ensures forall i :: 0 <= i < |TildeSpans(d, m, k)| ==> k > 0 && TildeSpans(d, m, k)[i].start <= d[k - 1].start
  {
    if k == 0 {
    } else {
      TildeSpansAscend(d, m, k - 1, size);
      if k > 1 { assert d[k - 2].start < d[k - 1].start; }
    }
  }

  method DeletionIntervals(d: seq<Delimiter>, m: Matching, ghost size: nat) returns (spans: seq<Span>)
    requires ScopedPairing(d, m) && Collected(d, size)
    ensures spans == TildeSpans(d, m, |d|) && Ascending(spans, size)
  {
    spans := [];
    for o := 0 to |d|
      invariant spans == TildeSpans(d, m, o)
    {
      if m[o] >= 0 && d[o].marker == '~' {
        spans := spans + [Span(d[o].start, d[m[o]].end)];
      }
    }
    TildeSpansAscend(d, m, |d|, size);
  }

  /** Strictly separated: neither overlapping nor touching. */
  ghost predicate Separated(spans: seq<Span>, size: nat) {
    && (forall i :: 0 <= i < |spans| ==> spans[i].start < spans[i].end <= size)
    && (forall i, j :: 0 <= i < j < |spans| ==> spans[i].end < spans[j].start)
  }

  /** Merging covers the same positions with separated spans. */
  method MergeIntervals(spans: seq<Span>, ghost size: nat) returns (merged: seq<Span>)
    requires Ascending(spans, size)
    ensures Separated(merged, size)
    ensures forall p :: Covers(merged, p) <==> Covers(spans, p)
  {
    merged := [];
    for k := 0 to |spans|
      invariant Separated(merged, size)
      invariant |merged| == 0 <==> k == 0
      invariant k > 0 ==> merged[|merged| - 1].start <= spans[k - 1].start
      invariant forall p :: Covers(merged, p) <==> Covers(spans[..k], p)
    {
      var s := spans[k];
      assert spans[..k + 1] == spans[..k] + [s];
      forall p
        ensures Covers(spans[..k + 1], p) <==> Covers(merged, p) || s.start <= p < s.end
      {
        CoversAppend(spans[..k], s, p);
      }
      merged := Absorb(merged, s, size);
    }
    assert spans[..|spans|] == spans;
  }

  /** One merge step: extend the last span when the next one starts inside or right after it. */
  method Absorb(before: seq<Span>, s: Span, ghost size: nat) returns (merged: seq<Span>)
    requires Separated(before, size) && s.start < s.end <= size
    requires |before| > 0 ==> before[|before| - 1].start <= s.start
    ensures Separated(merged, size) && |merged| > 0 && merged[|merged| - 1].start <= s.start
    ensures forall p :: Covers(merged, p) <==> Covers(before, p) || s.start <= p < s.end
  {
    if |before| > 0 && s.start <= before[|before| - 1].end {
      var init, last := before[..|before| - 1], before[|before| - 1];
      var joined := Span(last.start, if last.end < s.end then s.end else last.end);
      merged := init + [joined];
      assert before == init + [last];
      forall p
        ensures Covers(merged, p) <==> Covers(before, p) || s.start <= p < s.end
      {
        CoversAppend(init, last, p);
        CoversAppend(init, joined, p);
      }
    } else {
      merged := before + [s];
      forall p
        ensures Covers(merged, p) <==> Covers(before, p) || s.start <= p < s.end
      {
        CoversAppend(before, s, p);
      }
    }
  }

  lemma CoversAppend(spans: seq<Span>, s: Span, p: int)
    ensures Covers(spans + [s], p) <==> Covers(spans, p) || s.start <= p < s.end
  {
    assert (spans + [s])[|spans|] == s;
    assert forall i :: 0 <= i < |spans| ==> (spans + [s])[i] == spans[i];
  }

  // ---------- Blanking ----------

  /** `text[low..high]` without the covered characters that are not line breaks. */
  ghost function Survivors(text: string, spans: seq<Span>, low: nat, high: nat): string
    requires low <= high <= |text|
  {
    if low == high then ""
    else if Covers(spans, high - 1) && !LineBreak(text[high - 1]) then Survivors(text, spans, low, high - 1)
    else Survivors(text, spans, low, high - 1) + [text[high - 1]]
  }

  lemma {:induction false} SurvivorsSplit(text: string, spans: seq<Span>, low: nat, mid: nat, high: nat)
    requires low <= mid <= high <= |text|
    ensures Survivors(text, spans, low, high) == Survivors(text, spans, low, mid) + Survivors(text, spans, mid, high)
  {
    if mid == high {
    } else {
      SurvivorsSplit(text, spans, low, mid, high - 1);
    }
  }

  lemma {:induction false} SurvivorsOfCover(text: string, a: seq<Span>, b: seq<Span>, low: nat, high: nat)
    requires low <= high <= |text|
    requires forall p :: Covers(a, p) <==> Covers(b, p)
    ensures Survivors(text, a, low, high) == Survivors(text, b, low, high)
  {
    if low == high {
    } else {
      SurvivorsOfCover(text, a, b, low, high - 1);
    }
  }

  lemma {:induction false} NothingCovered(text: string, spans: seq<Span>, low: nat, high: nat)
    requires low <= high <= |text| && forall p :: low <= p < high ==> !Covers(spans, p)
    ensures Survivors(text, spans, low, high) == text[low..high]
  {
    if low == high {
    } else {
      NothingCovered(text, spans, low, high - 1);
      assert !Covers(spans, high - 1);
      assert text[low..high] == text[low..high - 1] + [text[high - 1]];
    }
  }

  /** Of a deleted stretch only the line breaks are left. */
  lemma {:induction false} AllCovered(text: string, spans: seq<Span>, low: nat, high: nat)
    requires low <= high <= |text| && forall p :: low <= p < high ==> Covers(spans, p)
    ensures Survivors(text, spans, low, high) == Breaks(text[low..high])
  {
    if low == high {
      assert text[low..high] == "";
    } else {
      AllCovered(text, spans, low, high - 1);
      assert Covers(spans, high - 1);
      assert text[low..high][..high - 1 - low] == text[low..high - 1];
    }
  }

  method Blank(text: string, merged: seq<Span>) returns (r: string)
    requires Separated(merged, |text|)
    ensures r == Survivors(text, merged, 0, |text|)
  {
    r := "";
    var cursor := 0;
    for k := 0 to |merged|
      invariant 0 <= cursor <= |text|
      invariant cursor == if k == 0 then 0 else merged[k - 1].end
      invariant r == Survivors(text, merged, 0, cursor)
    {
      var s := merged[k];
      Gap(merged, |text|, k, cursor);
      NothingCovered(text, merged, cursor, s.start);
      SurvivorsSplit(text, merged, 0, cursor, s.start);
      AllCovered(text, merged, s.start, s.end);
      SurvivorsSplit(text, merged, 0, s.start, s.end);
      r := r + text[cursor..s.start] + Breaks(text[s.start..s.end]);
      cursor := s.end;
    }
    Gap(merged, |text|, |merged|, cursor);
    NothingCovered(text, merged, cursor, |text|);
    SurvivorsSplit(text, merged, 0, cursor, |text|);
    r := r + text[cursor..];
  }

  /** Between consecutive separated spans nothing is covered. */
  lemma Gap(spans: seq<Span>, size: nat, k: nat, cursor: nat)
    requires Separated(spans, size) && k <= |spans|
    requires cursor == if k == 0 then 0 else spans[k - 1].end
    ensures cursor <= if k < |spans| then spans[k].start else size
    ensures forall p :: cursor <= p < (if k < |spans| then spans[k].start else size) ==> !Covers(spans, p)
  {
    assert forall i :: 0 <= i < k ==> spans[i].end <= cursor;
  }

  // ---------- Collection ----------

  /** End of the run of `marker` that starts at `from`. */
  function RunStop(text: string, from: nat, marker: char): (end: nat)
    requires from <= |text|
    ensures from <= end <= |text| && (from < |text| && text[from] == marker ==> from < end)
    decreases |text| - from
  {
    if from < |text| && text[from] == marker then RunStop(text, from + 1, marker) else from
  }

  method RunEnd(text: string, from: nat, marker: char) returns (end: nat)
    requires from <= |text|
    ensures end == RunStop(text, from, marker) && forall p :: from <= p < end ==> text[p] == marker
    ensures end < |text| ==> text[end] != marker
  {
    end := from;
    while end < |text| && text[end] == marker
      invariant from <= end <= |text| && forall p :: from <= p < end ==> text[p] == marker
      invariant RunStop(text, end, marker) == RunStop(text, from, marker)
    {
      end := end + 1;
    }
  }

  /** Past the first run of `width` backticks from `cursor` on, or `otherwise`. */
  function PastRun(text: string, cursor: nat, width: nat, otherwise: nat): nat
    requires cursor <= |text|
    decreases |text| - cursor
  {
    if cursor == |text| then otherwise
    else if text[cursor] == '`' then
      var end := RunStop(text, cursor, '`');
      if end - cursor == width then end else PastRun(text, end, width, otherwise)
    else PastRun(text, cursor + 1, width, otherwise)
  }

  /** Where scanning resumes after a backtick run: past the closing run of the same length, if any. */
  method BacktickResume(text: string, runStart: nat, runEnd: nat) returns (resume: nat)
    requires runStart < runEnd <= |text|
    ensures runEnd <= resume <= |text| && resume == PastRun(text, runEnd, runEnd - runStart, runEnd)
  {
    var cursor := runEnd;
    while cursor < |text|
      invariant runEnd <= cursor <= |text|
      invariant PastRun(text, cursor, runEnd - runStart, runEnd) == PastRun(text, runEnd, runEnd - runStart, runEnd)
    {
      if text[cursor] == '`' {
        var end := RunEnd(text, cursor, '`');
        if end - cursor == runEnd - runStart { return end; }
        cursor := end;
      } else {
        cursor := cursor + 1;
      }
    }
    return runEnd;
  }

  /** A delimiter is one `*` or `_`, or two `~`, of the run that starts at `run`; it carries the whole length of
      an emphasis run. */
  ghost predicate Spells(text: string, x: Delimiter) {
    && x.run <= x.start < x.end <= |text|
    && (x.marker == '~' ==> x.end == x.start + 2 && x.length == 0)
    && (x.marker != '~' ==> x.end == x.start + 1 && x.marker in {'*', '_'})
    && (x.marker != '~' ==> x.length == RunStop(text, x.run, x.marker) - x.run)
    && forall p :: x.run <= p < x.end ==> text[p] == x.marker
  }

  ghost predicate CollectedUpTo(text: string, d: seq<Delimiter>, cursor: nat) {
    && Collected(d, |text|)
    && (forall i :: 0 <= i < |d| ==> d[i].end <= cursor && Spells(text, d[i]))
  }

  lemma CollectOne(text: string, d: seq<Delimiter>, x: Delimiter, cursor: nat)
    requires CollectedUpTo(text, d, cursor) && cursor <= x.start && Spells(text, x)
    ensures CollectedUpTo(text, d + [x], x.end)
  {
  }

  type Flanking = (nat, nat, bool) -> (bool, bool)

  /** What is known of a run before it is cut into delimiters. */
  datatype RunInfo = RunInfo(run: nat, end: nat, canOpen: bool, canClose: bool, marker: char)

  function DelimiterAt(i: RunInfo, at: nat, labels: nat -> LinkScope): Delimiter
    requires i.run < i.end
  {
    if i.marker == '~' then Delimiter(at, at + 2, i.canOpen, i.canClose, i.marker, i.run, 0, labels(at))
    else Delimiter(at, at + 1, i.canOpen, i.canClose, i.marker, i.run, i.end - i.run, labels(at))
  }

  function Width(marker: char): nat { if marker == '~' then 2 else 1 }

  /** The delimiters of a run from `at` to its end. */
  function OfRun(i: RunInfo, at: nat, labels: nat -> LinkScope): seq<Delimiter>
    requires i.run < i.end
    decreases i.end - at
  {
    if at < i.end then [DelimiterAt(i, at, labels)] + OfRun(i, at + Width(i.marker), labels) else []
  }

  /** An odd leading `~` stays literal. */
  function FirstOf(i: RunInfo): nat
    requires i.run < i.end
  {
    if i.marker == '~' then i.run + (i.end - i.run) % 2 else i.run
  }

  predicate StartsRun(text: string, cursor: nat)
    requires cursor < |text|
  {
    text[cursor] in {'*', '_'} || (text[cursor] == '~' && cursor + 1 < |text| && text[cursor + 1] == '~')
  }

  function RunAt(text: string, cursor: nat, flanking: Flanking): (i: RunInfo)
    requires cursor < |text| && StartsRun(text, cursor)
    ensures i.run == cursor < i.end <= |text|
  {
    var end := RunStop(text, cursor, text[cursor]);
    var (canOpen, canClose) := flanking(cursor, end, text[cursor] != '_');
    RunInfo(cursor, end, canOpen, canClose, text[cursor])
  }

  /** Past an escape, a code span or backtick run, or one other character. */
  function Skipped(text: string, cursor: nat): (next: nat)
    requires cursor < |text|
  {
    if text[cursor] == '\\' && cursor + 1 < |text| then cursor + 2
    else if text[cursor] == '`' then
      var end := RunStop(text, cursor, '`');
      PastRun(text, end, end - cursor, end)
    else cursor + 1
  }

  lemma {:induction false} PastRunBounds(text: string, cursor: nat, width: nat, otherwise: nat)
    requires cursor <= |text| && otherwise <= cursor
    ensures otherwise <= PastRun(text, cursor, width, otherwise) <= |text|
    decreases |text| - cursor
  {
    if cursor == |text| {
    } else if text[cursor] == '`' {
      var end := RunStop(text, cursor, '`');
      if end - cursor != width { PastRunBounds(text, end, width, otherwise); }
    } else {
      PastRunBounds(text, cursor + 1, width, otherwise);
    }
  }

  lemma SkippedForward(text: string, cursor: nat)
    requires cursor < |text|
    ensures cursor < Skipped(text, cursor) <= |text|
  {
    if text[cursor] == '`' {
      var end := RunStop(text, cursor, '`');
      PastRunBounds(text, end, end - cursor, end);
    }
  }

  /** Every delimiter from `cursor` on: each run outside escapes and code spans, cut into its delimiters. */
  function AllDelimiters(text: string, cursor: nat, flanking: Flanking, labels: nat -> LinkScope): seq<Delimiter>
    requires cursor <= |text|
    decreases |text| - cursor
  {
    if cursor == |text| then []
    else if StartsRun(text, cursor) then
      var i := RunAt(text, cursor, flanking);
      OfRun(i, FirstOf(i), labels) + AllDelimiters(text, i.end, flanking, labels)
    else
      SkippedForward(text, cursor);
      AllDelimiters(text, Skipped(text, cursor), flanking, labels)
  }

  lemma SkipKeeps(text: string, cursor: nat, flanking: Flanking, labels: nat -> LinkScope)
    requires cursor < |text| && !StartsRun(text, cursor)
    ensures cursor < Skipped(text, cursor) <= |text|
    ensures AllDelimiters(text, cursor, flanking, labels) == AllDelimiters(text, Skipped(text, cursor), flanking, labels)
  {
    SkippedForward(text, cursor);
  }

  lemma RunAdds(text: string, cursor: nat, flanking: Flanking, labels: nat -> LinkScope, before: seq<Delimiter>,
                run: seq<Delimiter>, later: seq<Delimiter>)
    requires cursor < |text| && StartsRun(text, cursor)
    requires var i := RunAt(text, cursor, flanking);
      run == OfRun(i, FirstOf(i), labels) && later == AllDelimiters(text, i.end, flanking, labels)
    ensures before + AllDelimiters(text, cursor, flanking, labels) == before + run + later
  {
    assert before + (run + later) == before + run + later;
  }

  lemma SpellsAt(text: string, i: RunInfo, at: nat, labels: nat -> LinkScope)
    requires i.run < i.end <= |text| && i.marker in {'*', '_', '~'} && i.end == RunStop(text, i.run, i.marker)
    requires forall p :: i.run <= p < i.end ==> text[p] == i.marker
    requires i.run <= at && at + Width(i.marker) <= i.end
    ensures Spells(text, DelimiterAt(i, at, labels))
  {
  }

  lemma OfRunNext(i: RunInfo, at: nat, labels: nat -> LinkScope, d: seq<Delimiter>, x: Delimiter, later: seq<Delimiter>)
    requires i.run < i.end && at < i.end && x == DelimiterAt(i, at, labels) && later == OfRun(i, at + Width(i.marker), labels)
    ensures d + OfRun(i, at, labels) == d + [x] + later
  {
    assert d + ([x] + later) == d + [x] + later;
  }

  /** Whole pairs of `~` are left. */
  predicate Aligned(i: RunInfo, at: nat) { i.marker == '~' ==> (i.end - at) % 2 == 0 }

  lemma AlignedNext(i: RunInfo, at: nat)
    requires at < i.end && Aligned(i, at)
    ensures at + Width(i.marker) <= i.end && Aligned(i, at + Width(i.marker))
  {
  }

  /** The delimiters of one run. */
  method CollectRun(text: string, before: seq<Delimiter>, i: RunInfo, labels: nat -> LinkScope) returns (d: seq<Delimiter>)
    requires i.run < i.end <= |text| && i.marker in {'*', '_', '~'} && i.end == RunStop(text, i.run, i.marker)
    requires forall p :: i.run <= p < i.end ==> text[p] == i.marker
    requires CollectedUpTo(text, before, i.run)
    ensures d == before + OfRun(i, FirstOf(i), labels) && CollectedUpTo(text, d, i.end)
  {
    d := before;
    var at := FirstOf(i);
    ghost var all := before + OfRun(i, at, labels);
    while at < i.end
      invariant i.run <= at <= i.end && Aligned(i, at)
      invariant CollectedUpTo(text, d, at) && d + OfRun(i, at, labels) == all
    {
      AlignedNext(i, at);
      var x := DelimiterAt(i, at, labels);
      SpellsAt(text, i, at, labels);
      CollectOne(text, d, x, at);
      OfRunNext(i, at, labels, d, x, OfRun(i, at + Width(i.marker), labels));
      d := d + [x];
      at := at + Width(i.marker);
    }
  }

  /** One step of the scan. */
  method CollectNext(text: string, before: seq<Delimiter>, cursor: nat, flanking: Flanking, labels: nat -> LinkScope)
    returns (d: seq<Delimiter>, next: nat)
    requires cursor < |text| && CollectedUpTo(text, before, cursor)
    ensures cursor < next <= |text| && CollectedUpTo(text, d, next)
    ensures d + AllDelimiters(text, next, flanking, labels) == before + AllDelimiters(text, cursor, flanking, labels)
  {
    if StartsRun(text, cursor) {
      var end := RunEnd(text, cursor, text[cursor]);
      var i := RunAt(text, cursor, flanking);
      d := CollectRun(text, before, i, labels);
      next := end;
      RunAdds(text, cursor, flanking, labels, before, OfRun(i, FirstOf(i), labels), AllDelimiters(text, i.end, flanking, labels));
    } else {
      SkipKeeps(text, cursor, flanking, labels);
      d := before;
      if text[cursor] == '\\' && cursor + 1 < |text| {
        next := cursor + 2;
      } else if text[cursor] == '`' {
        var end := RunEnd(text, cursor, '`');
        next := BacktickResume(text, cursor, end);
      } else {
        next := cursor + 1;
      }
    }
  }

  /** The scan that lists delimiters, given the flanking classification and the link labels. */
  method CollectDelimiters(text: string, flanking: Flanking, labels: nat -> LinkScope) returns (d: seq<Delimiter>)
    ensures d == AllDelimiters(text, 0, flanking, labels) && CollectedUpTo(text, d, |text|)
  {
    d := [];
    var cursor := 0;
    ghost var all := AllDelimiters(text, 0, flanking, labels);
    while cursor < |text|
      invariant 0 <= cursor <= |text| && CollectedUpTo(text, d, cursor)
      invariant d + AllDelimiters(text, cursor, flanking, labels) == all
    {
      d, cursor := CollectNext(text, d, cursor, flanking, labels);
    }
  }

  /** The whole last stage: exactly the characters under a reference `~` pair disappear, line breaks
      excepted. */
  method StripDeleted(text: string, d: seq<Delimiter>) returns (r: string)
    requires Collected(d, |text|)
    ensures ScopedPairing(d, ReferenceMatching(d))
    ensures r == Survivors(text, TildeSpans(d, ReferenceMatching(d), |d|), 0, |text|)
  {
    ReferenceIsScoped(d);
    var matched := MatchDelimiters(d);
    var spans := DeletionIntervals(d, matched, |text|);
    var merged := MergeIntervals(spans, |text|);
    SurvivorsOfCover(text, merged, spans, 0, |text|);
    r := Blank(text, merged);
  }
}
