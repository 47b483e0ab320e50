/** Delimiter pairing for emphasis and strikethrough runs.

  The repository pairs delimiters with an index-jumping scan that keeps two caches, `jumps` and
  `openers_bottom`. `Reference` below is the same pairing without any cache: every closer, taken left
  to right, looks at each earlier index in turn. `PairScope` is the cached scan, proved to
  compute exactly `Reference`.
*/
module DelimiterPairing {

  /** The link labels around a delimiter, by identifier. */
  datatype LinkScope = LinkScope(labels: seq<nat>)

  /** One delimiter: its text span, flanking flags, marker, the offset of its run, the run length
      (0 for strikethrough) and the link labels enclosing it. */
  datatype Delimiter = Delimiter(
    start: nat, end: nat, canOpen: bool, canClose: bool, marker: char,
    run: nat, length: nat, scope: LinkScope)

  /** `m[o]` is the index of the closer paired with opener `o`, or -1. */
  type Matching = seq<int>

  // ---------- The cache-free reference ----------

  /** Index `i` lies strictly inside a pair that has already been made. */
  ghost predicate Enclosed(m: Matching, i: int) {
    exists o :: 0 <= o < |m| && o < i < m[o]
  }

  /** Index `i` may still become an opener. */
  ghost predicate Free(d: seq<Delimiter>, m: Matching, i: int)
    requires |m| == |d| && 0 <= i < |d|
  {
    d[i].canOpen && m[i] < 0 && i !in m && !Enclosed(m, i)
  }

  /** The multiple-of-3 rule (rules 9 and 10 of section 6.2 of CommonMark 0.31.2). */
  predicate OddMatch(opener: Delimiter, closer: Delimiter) {
    && (opener.canClose || closer.canOpen)
    && (opener.length + closer.length) % 3 == 0
    && (opener.length % 3 != 0 || closer.length % 3 != 0)
  }

  ghost predicate Compatible(d: seq<Delimiter>, m: Matching, c: int, i: int)
    requires |m| == |d| && 0 <= c < |d| && 0 <= i < |d|
  {
    d[i].marker == d[c].marker && Free(d, m, i) && !OddMatch(d[i], d[c])
  }

  /** First index of the stretch of `c`'s run in which nothing has closed a pair yet. */
  ghost function Header(d: seq<Delimiter>, m: Matching, c: nat): (h: nat)
    requires |m| == |d| && c < |d|
    ensures h <= c
    ensures forall j :: h <= j < c ==> j !in m
  {
    if c == 0 || d[c - 1].run != d[c].run || c - 1 in m then c else Header(d, m, c - 1)
  }

  /** The nearest compatible opener below `h`, or -1. */
  ghost function Nearest(d: seq<Delimiter>, m: Matching, h: nat, c: nat): (o: int)
    requires |m| == |d| && h <= c < |d|
    ensures -1 <= o < h
    ensures o >= 0 ==> Compatible(d, m, c, o)
    ensures forall i :: o < i < h ==> !Compatible(d, m, c, i)
  {
    if h == 0 then -1
    else if Compatible(d, m, c, h - 1) then h - 1
    else Nearest(d, m, h - 1, c)
  }

  ghost function ReferenceStep(d: seq<Delimiter>, m: Matching, c: nat): (r: Matching)
    requires |m| == |d| && c < |d|
    ensures |r| == |d|
  {
    var o := Nearest(d, m, Header(d, m, c), c);
    if d[c].canClose && o >= 0 then m[o := c] else m
  }

  /** The pairing after the first `k` delimiters have been offered as closers. */
  ghost function Reference(d: seq<Delimiter>, k: nat): (m: Matching)
    requires k <= |d|
    ensures |m| == |d|
  {
    if k == 0 then seq(|d|, _ => -1) else ReferenceStep(d, Reference(d, k - 1), k - 1)
  }

  // ---------- What every pairing satisfies ----------

  /** Pairs join an eligible opener to a later eligible closer of the same marker, every delimiter
      takes part in at most one pair, and no two pairs cross. */
  ghost predicate WellPaired(d: seq<Delimiter>, m: Matching, k: nat) {
    && |m| == |d|
    && (forall o :: 0 <= o < |m| ==> m[o] == -1 || Joined(d, o, m[o], k))
    && (forall o :: 0 <= o < |m| && m[o] >= 0 ==> o !in m && Nests(m, o))
  }

  /** No later opener shares the closer of `o`, and later pairs opened inside `o`'s pair close inside it. */
  ghost predicate Nests(m: Matching, o: nat)
    requires o < |m|
  {
    forall p :: o < p < |m| && m[p] >= 0 ==> m[p] != m[o] && (p < m[o] ==> m[p] < m[o])
  }

  predicate Joined(d: seq<Delimiter>, o: nat, c: int, k: nat)
    requires o < |d|
  {
    && o < c < k && c < |d|
    && d[o].canOpen && d[c].canClose
    && d[o].marker == d[c].marker
    && !OddMatch(d[o], d[c])
  }

  lemma {:induction false} ReferenceWellPaired(d: seq<Delimiter>, k: nat)
    requires k <= |d|
    ensures WellPaired(d, Reference(d, k), k)
  {
    if k == 0 {
      assert forall o :: 0 <= o < |d| ==> Reference(d, 0)[o] == -1;
    } else {
      ReferenceWellPaired(d, k - 1);
      StepWellPaired(d, Reference(d, k - 1), k - 1);
    }
  }

  lemma StepWellPaired(d: seq<Delimiter>, m: Matching, c: nat)
    requires c < |d| && WellPaired(d, m, c)
    ensures WellPaired(d, ReferenceStep(d, m, c), c + 1)
  {
    var o := Nearest(d, m, Header(d, m, c), c);
    if d[c].canClose && o >= 0 { PairKeepsWellPaired(d, m, o, c); }
  }

  lemma PairKeepsWellPaired(d: seq<Delimiter>, m: Matching, o: nat, c: nat)
    requires o < c < |d| && WellPaired(d, m, c)
    requires Compatible(d, m, c, o) && d[c].canClose
    ensures WellPaired(d, m[o := c], c + 1)
  {
    var r := m[o := c];
    assert forall p :: 0 <= p < o ==> m[p] <= o;
    forall p | 0 <= p < |r| && r[p] >= 0
      ensures p !in r && Nests(r, p)
    {
      assert p != o ==> m[p] >= 0 && p !in m && Nests(m, p);
    }
  }

  // ---------- Effect of one new pair on the caches ----------

  lemma FreeShrinks(d: seq<Delimiter>, m: Matching, o: nat, c: nat, i: nat)
    requires |m| == |d| && o < |d| && i < |d| && m[o] < 0
    ensures Free(d, m[o := c], i) ==> Free(d, m, i)
  {
    var r := m[o := c];
    assert forall p :: 0 <= p < |m| && m[p] >= 0 ==> r[p] == m[p];
  }

  /** Everything a jump passes over can never again be an opener. */
  ghost predicate JumpsSkipDead(d: seq<Delimiter>, m: Matching, jumps: seq<int>)
    requires |m| == |d|
  {
    && |jumps| <= |d|
    && (forall p :: 0 <= p < |jumps| ==> 0 <= jumps[p] <= p)
    && (forall p :: 0 <= p < |jumps| ==> Dead(d, m, p - jumps[p], p))
  }

  ghost predicate Dead(d: seq<Delimiter>, m: Matching, low: int, high: int)
    requires |m| == |d| && 0 <= low <= high <= |d|
  {
    forall i :: low <= i < high ==> !Free(d, m, i)
  }

  /** Jumping from outside every pair lands outside every pair. */
  ghost predicate JumpsStayOutside(m: Matching, jumps: seq<int>) {
    forall p {:trigger jumps[p]} :: 0 <= p < |jumps| && !Enclosed(m, p) ==> !Enclosed(m, p - jumps[p] - 1)
  }

  function LastJump(mutableOpen: seq<bool>, jumps: seq<int>, o: nat): int
    requires o < |jumps| && |jumps| <= |mutableOpen|
  {
    if o > 0 && !mutableOpen[o - 1] then jumps[o - 1] + 1 else 0
  }

  /** The jump list after `o` has been paired with `c`. */
  function Jumped(mutableOpen: seq<bool>, jumps: seq<int>, o: nat, c: nat): (r: seq<int>)
    requires o < c < |jumps| && |jumps| <= |mutableOpen|
    ensures |r| == |jumps|
  {
    var lastJump := LastJump(mutableOpen, jumps, o);
    jumps[c := c - o + lastJump][o := lastJump]
  }

  ghost predicate OpenFlags(d: seq<Delimiter>, m: Matching, mutableOpen: seq<bool>) {
    && |m| == |d| == |mutableOpen|
    && forall i :: 0 <= i < |d| ==> mutableOpen[i] == (d[i].canOpen && i !in m)
  }

  /** The three ways in which pairing `o` with `c` can only add to `Enclosed`. */
  lemma PairEncloses(m: Matching, o: nat, c: nat, i: int)
    requires o < |m| && m[o] < 0
    ensures Enclosed(m, i) ==> Enclosed(m[o := c], i)
    ensures o < i < c ==> Enclosed(m[o := c], i)
    ensures Enclosed(m[o := c], i) ==> Enclosed(m, i) || o < i < c
  {
    var r := m[o := c];
    assert forall p :: 0 <= p < |m| && p != o ==> r[p] == m[p];
    assert r[o] == c;
  }

  /** Just below an index that closes nothing, one is enclosed only if that index is. */
  lemma EnclosedAbove(m: Matching, o: int)
    requires o !in m && Enclosed(m, o - 1)
    ensures Enclosed(m, o)
  {
    var p :| 0 <= p < |m| && p < o - 1 < m[p];
    assert p < o < m[p];
  }

  lemma PairKeepsJumps(d: seq<Delimiter>, m: Matching, mutableOpen: seq<bool>, jumps: seq<int>, o: nat, c: nat)
    requires o < c < |d| && |jumps| == c + 1
    requires WellPaired(d, m, c) && OpenFlags(d, m, mutableOpen)
    requires Compatible(d, m, c, o)
    requires JumpsSkipDead(d, m, jumps)
    ensures JumpsSkipDead(d, m[o := c], Jumped(mutableOpen, jumps, o, c))
  {
    var last := LastJump(mutableOpen, jumps, o);
    var jumps' := Jumped(mutableOpen, jumps, o, c);
    var r := m[o := c];
    assert Dead(d, m, o - last, o) by {
      if last > 0 { assert Dead(d, m, o - 1 - jumps[o - 1], o - 1); }
    }
    forall p | 0 <= p < |jumps'|
      ensures Dead(d, r, p - jumps'[p], p)
    {
      assert p != c && p != o ==> Dead(d, m, p - jumps[p], p);
      forall i | p - jumps'[p] <= i < p
        ensures !Free(d, r, i)
      {
        FreeShrinks(d, m, o, c, i);
        PairEncloses(m, o, c, i);
      }
    }
  }

  lemma PairKeepsOutside(d: seq<Delimiter>, m: Matching, mutableOpen: seq<bool>, jumps: seq<int>, o: nat, c: nat)
    requires o < c < |d| && |jumps| == c + 1
    requires WellPaired(d, m, c) && OpenFlags(d, m, mutableOpen)
    requires Compatible(d, m, c, o)
    requires JumpsSkipDead(d, m, jumps) && JumpsStayOutside(m, jumps)
    ensures JumpsStayOutside(m[o := c], Jumped(mutableOpen, jumps, o, c))
  {
    var last := LastJump(mutableOpen, jumps, o);
    var jumps' := Jumped(mutableOpen, jumps, o, c);
    var r := m[o := c];
    assert !Enclosed(m, o - last - 1) by {
      if Enclosed(m, o - 1) { EnclosedAbove(m, o); }
    }
    forall p | 0 <= p < |jumps'| && !Enclosed(r, p)
      ensures !Enclosed(r, p - jumps'[p] - 1)
    {
      PairEncloses(m, o, c, p);
      PairEncloses(m, o, c, p - jumps'[p] - 1);
    }
  }

  // ---------- The bottom cache ----------

  function Slot(canOpen: bool, length: nat): (s: nat)
    ensures s < 6
  {
    (if canOpen then 3 else 0) + length % 3
  }

  /** An opener that every closer of the slot rejects by the multiple-of-3 rule. */
  predicate RejectedBySlot(opener: Delimiter, slot: nat) {
    && (opener.canClose || slot >= 3)
    && (opener.length + slot % 3) % 3 == 0
    && (opener.length % 3 != 0 || slot % 3 != 0)
  }

  ghost predicate BottomSound(d: seq<Delimiter>, m: Matching, marker: char, slot: nat, bottom: int)
    requires |m| == |d|
  {
    && -1 <= bottom < |d|
    && forall i :: 0 <= i <= bottom && d[i].marker == marker && Free(d, m, i) ==> RejectedBySlot(d[i], slot)
  }

  ghost predicate BottomsSound(d: seq<Delimiter>, m: Matching, bottoms: map<char, seq<int>>)
    requires |m| == |d|
  {
    forall x :: x in bottoms ==> SlotsSound(d, m, x, bottoms[x])
  }

  ghost predicate SlotsSound(d: seq<Delimiter>, m: Matching, marker: char, slots: seq<int>)
    requires |m| == |d|
  {
    |slots| == 6 && forall s :: 0 <= s < 6 ==> BottomSound(d, m, marker, s, slots[s])
  }

  lemma SlotRejection(opener: Delimiter, closer: Delimiter)
    ensures RejectedBySlot(opener, Slot(closer.canOpen, closer.length)) == OddMatch(opener, closer)
  {
    assert (opener.length + closer.length) % 3 == (opener.length + closer.length % 3) % 3;
    assert Slot(closer.canOpen, closer.length) % 3 == closer.length % 3;
  }

  lemma PairKeepsBottoms(d: seq<Delimiter>, m: Matching, o: nat, c: nat, bottoms: map<char, seq<int>>)
    requires |m| == |d| && o < |d| && m[o] < 0
    requires BottomsSound(d, m, bottoms)
    ensures BottomsSound(d, m[o := c], bottoms)
  {
    forall i: nat | i < |d|
      ensures Free(d, m[o := c], i) ==> Free(d, m, i)
    {
      FreeShrinks(d, m, o, c, i);
    }
    forall x | x in bottoms
      ensures SlotsSound(d, m[o := c], x, bottoms[x])
    {
      assert SlotsSound(d, m, x, bottoms[x]);
    }
  }

  /** A search that found nothing may raise its slot to just below the header. */
  lemma FailureRaisesBottom(d: seq<Delimiter>, m: Matching, c: nat, header: nat)
    requires |m| == |d| && header <= c < |d|
    requires forall i :: 0 <= i < header ==> !Compatible(d, m, c, i)
    ensures BottomSound(d, m, d[c].marker, Slot(d[c].canOpen, d[c].length), header - 1)
  {
    forall i | 0 <= i < header
      ensures d[i].marker == d[c].marker && Free(d, m, i) ==> RejectedBySlot(d[i], Slot(d[c].canOpen, d[c].length))
    {
      assert !Compatible(d, m, c, i);
      SlotRejection(d[i], d[c]);
    }
  }

  // ---------- The cached scan ----------

  datatype LastRun = NoRun | Run(offset: nat)

  /** Where the scan believes the header is, relative to the reference definition. */
  ghost predicate HeaderTracked(d: seq<Delimiter>, m: Matching, c: nat, last: LastRun, header: nat, jumps: seq<int>)
    requires |m| == |d| && c <= |d| && |jumps| == c
  {
    match last
    case NoRun => c == 0 || c - 1 in m
    case Run(offset) =>
      && c > 0 && offset == d[c - 1].run && c - 1 !in m
      && header == Header(d, m, c - 1) && jumps[header] == 0
  }

  /** The test the scan applies to one candidate, from the mutable flags. */
  method IsCandidate(d: seq<Delimiter>, m: Matching, mutableOpen: seq<bool>, mutableClose: seq<bool>, c: nat, i: nat)
    returns (yes: bool)
    requires i < c < |d| && OpenFlags(d, m, mutableOpen) && CloseFlags(d, m, mutableClose)
    requires !Enclosed(m, i) && c !in m && m[c] < 0
    ensures yes == Compatible(d, m, c, i)
  {
    yes := false;
    if d[i].marker == d[c].marker && mutableOpen[i] && m[i] < 0 {
      var odd := false;
      if mutableClose[i] || mutableOpen[c] {
        if (d[i].length + d[c].length) % 3 == 0 && (d[i].length % 3 != 0 || d[c].length % 3 != 0) {
          odd := true;
        }
      }
      yes := !odd;
    }
  }

  /** A sound bottom leaves nothing to find at or below it. */
  lemma NothingBelowBottom(d: seq<Delimiter>, m: Matching, c: nat, minimum: int, i: nat)
    requires |m| == |d| && i < c < |d| && i <= minimum
    requires BottomSound(d, m, d[c].marker, Slot(d[c].canOpen, d[c].length), minimum)
    ensures !Compatible(d, m, c, i)
  {
    SlotRejection(d[i], d[c]);
  }

  /** The inner loop: from just below the header, follow the jumps down to the slot's bottom. */
  method FindOpener(d: seq<Delimiter>, m: Matching, mutableOpen: seq<bool>, mutableClose: seq<bool>,
                    jumps: seq<int>, c: nat, header: nat, minimum: int)
    returns (opener: int)
    requires c < |d| && header <= c && |jumps| == c + 1
    requires WellPaired(d, m, c) && OpenFlags(d, m, mutableOpen) && CloseFlags(d, m, mutableClose)
    requires JumpsSkipDead(d, m, jumps) && JumpsStayOutside(m, jumps)
    requires jumps[header] == 0 && !Enclosed(m, header - 1)
    requires BottomSound(d, m, d[c].marker, Slot(d[c].canOpen, d[c].length), minimum)
    ensures opener == Nearest(d, m, header, c)
  {
    assert c !in m;
    opener := header - jumps[header] - 1;
    while opener > minimum
      invariant opener < header && !Enclosed(m, opener)
      invariant forall i :: 0 <= i < header && opener < i ==> !Compatible(d, m, c, i)
      decreases opener
    {
      var yes := IsCandidate(d, m, mutableOpen, mutableClose, c, opener);
      if yes { return; }
      opener := opener - (jumps[opener] + 1);
    }
    forall i | 0 <= i <= minimum && i < header
      ensures !Compatible(d, m, c, i)
    {
      NothingBelowBottom(d, m, c, minimum, i);
    }
    opener := -1;
  }

  ghost predicate CloseFlags(d: seq<Delimiter>, m: Matching, mutableClose: seq<bool>) {
    && |m| == |d| == |mutableClose|
    && forall i :: 0 <= i < |d| ==> mutableClose[i] == (d[i].canClose && m[i] < 0)
  }

  /** The working state of the scan agrees with the reference after `c` closers. */
  ghost predicate Synced(d: seq<Delimiter>, m: Matching, mutableOpen: seq<bool>, mutableClose: seq<bool>,
                         jumps: seq<int>, bottoms: map<char, seq<int>>, c: nat)
  {
    && c <= |d|
    && m == Reference(d, c) && WellPaired(d, m, c)
    && OpenFlags(d, m, mutableOpen) && CloseFlags(d, m, mutableClose)
    && JumpsSkipDead(d, m, jumps) && JumpsStayOutside(m, jumps)
    && BottomsSound(d, m, bottoms)
  }

  lemma NothingEnclosedAtEnd(d: seq<Delimiter>, m: Matching, c: nat, i: int)
    requires WellPaired(d, m, c) && i + 1 >= c
    ensures !Enclosed(m, i)
  {
  }

  /** Appending a zero jump for the next delimiter keeps the jump invariants. */
  lemma PushJump(d: seq<Delimiter>, m: Matching, jumps: seq<int>)
    requires WellPaired(d, m, |jumps|) && |jumps| < |d|
    requires JumpsSkipDead(d, m, jumps) && JumpsStayOutside(m, jumps)
    ensures JumpsSkipDead(d, m, jumps + [0]) && JumpsStayOutside(m, jumps + [0])
  {
    NothingEnclosedAtEnd(d, m, |jumps|, |jumps| - 1);
  }

  /** The header chosen for the next delimiter is the reference header, and lies outside every pair. */
  lemma HeaderChosen(d: seq<Delimiter>, m: Matching, c: nat, last: LastRun, header: nat, jumps: seq<int>)
    requires c < |d| && |jumps| == c && WellPaired(d, m, c)
    requires HeaderTracked(d, m, c, last, header, jumps)
    ensures var h := if last != Run(d[c].run) then c else header;
      h == Header(d, m, c) && (jumps + [0])[h] == 0 && !Enclosed(m, h - 1)
  {
    var h := if last != Run(d[c].run) then c else header;
    assert h == Header(d, m, c);
    assert forall p :: 0 <= p < |m| && h <= m[p] ==> m[p] < c && m[p] in m;
    assert forall j :: h <= j < c ==> j !in m;
  }

  lemma PairKeepsFlags(d: seq<Delimiter>, m: Matching, mutableOpen: seq<bool>, mutableClose: seq<bool>, o: nat, c: nat)
    requires OpenFlags(d, m, mutableOpen) && CloseFlags(d, m, mutableClose)
    requires o < c < |d| && m[o] == -1
    ensures OpenFlags(d, m[o := c], mutableOpen[c := false])
    ensures CloseFlags(d, m[o := c], mutableClose[o := false])
    ensures c in m[o := c]
  {
    var r := m[o := c];
    assert r[o] == c;
    assert forall p :: 0 <= p < |m| && p != o ==> r[p] == m[p];
    assert forall i :: 0 <= i < |d| ==> (i in r <==> i == c || i in m);
  }

  lemma PairKeepsSynced(d: seq<Delimiter>, m: Matching, mutableOpen: seq<bool>, mutableClose: seq<bool>,
                        jumps: seq<int>, bottoms: map<char, seq<int>>, c: nat, o: nat)
    requires c < |d| && |jumps| == c + 1 && Synced(d, m, mutableOpen, mutableClose, jumps, bottoms, c)
    requires d[c].canClose && o < c && o == Nearest(d, m, Header(d, m, c), c)
    ensures Synced(d, m[o := c], mutableOpen[c := false], mutableClose[o := false],
                   Jumped(mutableOpen, jumps, o, c), bottoms, c + 1)
    ensures c in m[o := c]
  {
    PairKeepsWellPaired(d, m, o, c);
    PairKeepsJumps(d, m, mutableOpen, jumps, o, c);
    PairKeepsOutside(d, m, mutableOpen, jumps, o, c);
    PairKeepsBottoms(d, m, o, c, bottoms);
    PairKeepsFlags(d, m, mutableOpen, mutableClose, o, c);
  }

  lemma RaisedBottoms(d: seq<Delimiter>, m: Matching, bottoms: map<char, seq<int>>, marker: char, slot: nat, bottom: int)
    requires |m| == |d| && marker in bottoms && slot < 6 && BottomsSound(d, m, bottoms)
    requires BottomSound(d, m, marker, slot, bottom)
    ensures BottomsSound(d, m, bottoms[marker := bottoms[marker][slot := bottom]])
  {
  }

  lemma FailKeepsSynced(d: seq<Delimiter>, m: Matching, mutableOpen: seq<bool>, mutableClose: seq<bool>,
                        jumps: seq<int>, bottoms: map<char, seq<int>>, c: nat)
    requires c < |d| && Synced(d, m, mutableOpen, mutableClose, jumps, bottoms, c)
    requires d[c].canClose ==> Nearest(d, m, Header(d, m, c), c) < 0
    ensures Synced(d, m, mutableOpen, mutableClose, jumps, bottoms, c + 1)
    ensures c !in m
  {
    assert c !in m;
  }

  /** The lists and caches the scan updates while it walks one link scope. */
  datatype Scan = Scan(m: Matching, mutableOpen: seq<bool>, mutableClose: seq<bool>, jumps: seq<int>,
                       bottoms: map<char, seq<int>>, header: nat, last: LastRun)

  ghost predicate Ready(d: seq<Delimiter>, s: Scan, c: nat) {
    && |s.jumps| == c
    && Synced(d, s.m, s.mutableOpen, s.mutableClose, s.jumps, s.bottoms, c)
    && HeaderTracked(d, s.m, c, s.last, s.header, s.jumps)
  }

  /** One iteration of the closer loop. */
  method OfferCloser(d: seq<Delimiter>, before: Scan, c: nat) returns (s: Scan)
    requires c < |d| && Ready(d, before, c)
    ensures Ready(d, s, c + 1)
  {
    HeaderChosen(d, before.m, c, before.last, before.header, before.jumps);
    PushJump(d, before.m, before.jumps);
    s := before.(jumps := before.jumps + [0],
                 header := if before.last != Run(d[c].run) then c else before.header,
                 last := Run(d[c].run));
    if s.mutableClose[c] {
      s := CloseAt(d, s, c);
    } else {
      FailKeepsSynced(d, s.m, s.mutableOpen, s.mutableClose, s.jumps, s.bottoms, c);
    }
  }

  /** The part of the iteration that runs for a delimiter able to close. */
  method CloseAt(d: seq<Delimiter>, before: Scan, c: nat) returns (s: Scan)
    requires c < |d| && |before.jumps| == c + 1 && d[c].canClose
    requires Synced(d, before.m, before.mutableOpen, before.mutableClose, before.jumps, before.bottoms, c)
    requires before.header == Header(d, before.m, c) && before.jumps[before.header] == 0
    requires !Enclosed(before.m, before.header - 1) && before.last == Run(d[c].run)
    ensures Ready(d, s, c + 1)
  {
    var marker := d[c].marker;
    NewSlotsSound(d, before.m, before.bottoms, marker);
    s := before.(bottoms := WithSlots(before.bottoms, marker));
    FlagAtCloser(d, s.m, s.mutableOpen, c);
    var slot := Slot(s.mutableOpen[c], d[c].length);
    var o := FindOpener(d, s.m, s.mutableOpen, s.mutableClose, s.jumps, c, s.header, s.bottoms[marker][slot]);
    if o >= 0 {
      PairedReady(d, s, c, o);
      s := Paired(s, c, o);
    } else {
      s := RaiseBottom(d, s, c, marker, slot);
    }
  }

  /** The slots of a marker are created on first use. */
  function WithSlots(bottoms: map<char, seq<int>>, marker: char): map<char, seq<int>> {
    if marker in bottoms then bottoms else bottoms[marker := [-1, -1, -1, -1, -1, -1]]
  }

  lemma NewSlotsSound(d: seq<Delimiter>, m: Matching, bottoms: map<char, seq<int>>, marker: char)
    requires |m| == |d| && BottomsSound(d, m, bottoms)
    ensures BottomsSound(d, m, WithSlots(bottoms, marker)) && marker in WithSlots(bottoms, marker)
  {
  }

  /** A successful search: pair the two, record the jumps over them and forget the run. */
  function Paired(s: Scan, c: nat, o: nat): Scan
    requires o < c < |s.jumps| && |s.jumps| <= |s.mutableOpen| == |s.mutableClose| == |s.m|
  {
    Scan(s.m[o := c], s.mutableOpen[c := false], s.mutableClose[o := false],
         Jumped(s.mutableOpen, s.jumps, o, c), s.bottoms, s.header, NoRun)
  }

  lemma PairedReady(d: seq<Delimiter>, s: Scan, c: nat, o: nat)
    requires c < |d| && |s.jumps| == c + 1 && d[c].canClose
    requires Synced(d, s.m, s.mutableOpen, s.mutableClose, s.jumps, s.bottoms, c)
    requires o < c && o == Nearest(d, s.m, Header(d, s.m, c), c)
    ensures Ready(d, Paired(s, c, o), c + 1)
  {
    PairKeepsSynced(d, s.m, s.mutableOpen, s.mutableClose, s.jumps, s.bottoms, c, o);
  }

  lemma FlagAtCloser(d: seq<Delimiter>, m: Matching, mutableOpen: seq<bool>, c: nat)
    requires c < |d| && WellPaired(d, m, c) && OpenFlags(d, m, mutableOpen)
    ensures mutableOpen[c] == d[c].canOpen
  {
  }

  /** The tail of an unsuccessful search: remember how far it looked. */
  method RaiseBottom(d: seq<Delimiter>, before: Scan, c: nat, marker: char, slot: nat) returns (s: Scan)
    requires c < |d| && |before.jumps| == c + 1 && d[c].canClose
    requires Synced(d, before.m, before.mutableOpen, before.mutableClose, before.jumps, before.bottoms, c)
    requires before.header == Header(d, before.m, c) && before.jumps[before.header] == 0
    requires before.last == Run(d[c].run)
    requires Nearest(d, before.m, before.header, c) == -1
    requires marker == d[c].marker && marker in before.bottoms && slot == Slot(d[c].canOpen, d[c].length)
    ensures Ready(d, s, c + 1)
  {
    s := before;
    var newMinimum := s.header - s.jumps[s.header] - 1;
    if newMinimum != -1 {
      FailureRaisesBottom(d, s.m, c, s.header);
      RaisedBottoms(d, s.m, s.bottoms, marker, slot, newMinimum);
      s := s.(bottoms := s.bottoms[marker := s.bottoms[marker][slot := newMinimum]]);
    }
    FailKeepsSynced(d, s.m, s.mutableOpen, s.mutableClose, s.jumps, s.bottoms, c);
  }

  method InitialScan(d: seq<Delimiter>) returns (s: Scan)
    ensures Ready(d, s, 0)
  {
    var m := seq(|d|, _ => -1);
    s := Scan(m, seq(|d|, i requires 0 <= i < |d| => d[i].canOpen),
              seq(|d|, i requires 0 <= i < |d| => d[i].canClose), [], map[], 0, NoRun);
  }

  /** The cached scan over the delimiters of one link scope. */
  method PairScope(d: seq<Delimiter>) returns (m: Matching)
    ensures m == Reference(d, |d|)
  {
    var s := InitialScan(d);
    for c := 0 to |d|
      invariant Ready(d, s, c)
    {
      s := OfferCloser(d, s, c);
    }
    m := s.m;
  }
}
