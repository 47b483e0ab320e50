/** The gate journal of a completed-task cleanup: what its records look like after any number of
    interruptions, and what a restart makes of them. */
module CleanupJournal {
  import opened Cardinality

  datatype Gate =
    | CleanupPrepared
    | AncestryVerified(id: string)
    | ReleasePrepared(id: string)
    | Released(id: string)
    | ResourcesReleased
    | RemotePrepared
    | RemoteAbsent
    | WorktreePrepared
    | LocalPrepared
    | LocalAbsent
    | WorktreeRemoved
    | TitleUnavailable
    | TitleVerified
    | TitleDone

  type History = seq<Gate>

  /** One published journal file; `durable` once its directory entry has been synchronised. */
  datatype Record = Record(history: History, durable: bool)

  const RECORD_LIMIT := 1000

  // ---------- Order of gates ----------

  /** The gates that must already be recorded when `g` is. */
  ghost function Prerequisites(g: Gate, ids: set<string>): set<Gate> {
    match g
    case CleanupPrepared => {}
    case AncestryVerified(_) => {CleanupPrepared}
    case ReleasePrepared(id) => {CleanupPrepared, AncestryVerified(id)}
    case Released(id) => {CleanupPrepared, AncestryVerified(id)}
    case ResourcesReleased => {CleanupPrepared} + set id | id in ids :: Released(id)
    case RemotePrepared => {CleanupPrepared, ResourcesReleased}
    case RemoteAbsent => {CleanupPrepared, ResourcesReleased}
    case WorktreePrepared => {CleanupPrepared, RemoteAbsent}
    case LocalPrepared => {CleanupPrepared, RemoteAbsent}
    case LocalAbsent => {CleanupPrepared, RemoteAbsent}
    case WorktreeRemoved => {CleanupPrepared, LocalAbsent}
    case TitleUnavailable => {CleanupPrepared, WorktreeRemoved}
    case TitleVerified => {CleanupPrepared, WorktreeRemoved}
    case TitleDone => {CleanupPrepared, WorktreeRemoved}
  }

  ghost predicate Concerns(g: Gate, ids: set<string>) {
    (g.AncestryVerified? || g.ReleasePrepared? || g.Released?) ==> g.id in ids
  }

  /** The gate at `i` is new, belongs to the task, and has its prerequisites before it. */
  ghost predicate WellPlaced(h: History, ids: set<string>, i: nat)
    requires i < |h|
  {
    h[i] !in h[..i] && Concerns(h[i], ids) && forall g :: g in Prerequisites(h[i], ids) ==> g in h[..i]
  }

  ghost predicate Ordered(h: History, ids: set<string>) {
    forall i :: 0 <= i < |h| ==> WellPlaced(h, ids, i)
  }

  ghost predicate MayFollow(h: History, g: Gate, ids: set<string>) {
    g !in h && Concerns(g, ids) && forall p :: p in Prerequisites(g, ids) ==> p in h
  }

  lemma AppendOrdered(h: History, g: Gate, ids: set<string>)
    requires Ordered(h, ids) && MayFollow(h, g, ids)
    ensures Ordered(h + [g], ids)
  {
    forall i | 0 <= i < |h + [g]|
      ensures WellPlaced(h + [g], ids, i)
    {
      if i < |h| {
        assert WellPlaced(h, ids, i);
        assert (h + [g])[..i] == h[..i];
      } else {
        assert (h + [g])[..i] == h;
      }
    }
  }

  ghost predicate Precedes(h: History, first: Gate, second: Gate) {
    exists i, j :: 0 <= i < j < |h| && h[i] == first && h[j] == second
  }

  lemma PrerequisitePrecedes(h: History, ids: set<string>, p: Gate, g: Gate)
    requires Ordered(h, ids) && p in Prerequisites(g, ids)
    ensures g in h ==> Precedes(h, p, g)
  {
    if g in h {
      var j :| 0 <= j < |h| && h[j] == g;
      assert WellPlaced(h, ids, j);
      var i :| 0 <= i < |h[..j]| && h[..j][i] == p;
      assert h[i] == p;
    }
  }

  lemma Distinct(h: History, ids: set<string>, i: nat, j: nat)
    requires Ordered(h, ids) && i < j < |h|
    ensures h[i] != h[j]
  {
    assert WellPlaced(h, ids, j);
    assert h[..j][i] == h[i];
  }

  lemma PrecedesTransitive(h: History, ids: set<string>, a: Gate, b: Gate, c: Gate)
    requires Ordered(h, ids) && Precedes(h, a, b) && Precedes(h, b, c)
    ensures Precedes(h, a, c)
  {
    var i, j :| 0 <= i < j < |h| && h[i] == a && h[j] == b;
    var k, l :| 0 <= k < l < |h| && h[k] == b && h[l] == c;
    assert j == k by {
      if j < k { Distinct(h, ids, j, k); }
      if k < j { Distinct(h, ids, k, j); }
    }
  }

  /** Wherever the second gate is recorded, the first one came before it. */
  ghost predicate Follows(h: History, second: Gate, first: Gate) { second in h ==> Precedes(h, first, second) }

  /** The order of the task's own gates, also for a task without resources. */
  ghost predicate StagesInOrder(h: History) {
    && (h != [] ==> h[0] == CleanupPrepared)
    && Follows(h, RemotePrepared, ResourcesReleased) && Follows(h, RemoteAbsent, ResourcesReleased)
    && Follows(h, WorktreePrepared, RemoteAbsent) && Follows(h, LocalPrepared, RemoteAbsent)
    && Follows(h, LocalAbsent, RemoteAbsent) && Follows(h, WorktreeRemoved, LocalAbsent)
    && Follows(h, TitleDone, WorktreeRemoved)
  }

  /** The order of one resource's gates. */
  ghost predicate ResourceInOrder(h: History, id: string) {
    && Follows(h, ReleasePrepared(id), AncestryVerified(id)) && Follows(h, Released(id), AncestryVerified(id))
    && Follows(h, ResourcesReleased, Released(id)) && Follows(h, TitleDone, Released(id))
  }

  /** The teardown order that every history obeys, however often the run was interrupted. */
  lemma TeardownOrder(h: History, ids: set<string>)
    requires Ordered(h, ids)
    ensures StagesInOrder(h)
    ensures forall id :: id in ids ==> ResourceInOrder(h, id)
  {
    if h != [] { FirstGate(h, ids); }
    PrerequisitePrecedes(h, ids, ResourcesReleased, RemotePrepared);
    PrerequisitePrecedes(h, ids, ResourcesReleased, RemoteAbsent);
    PrerequisitePrecedes(h, ids, RemoteAbsent, WorktreePrepared);
    PrerequisitePrecedes(h, ids, RemoteAbsent, LocalPrepared);
    PrerequisitePrecedes(h, ids, RemoteAbsent, LocalAbsent);
    PrerequisitePrecedes(h, ids, LocalAbsent, WorktreeRemoved);
    PrerequisitePrecedes(h, ids, WorktreeRemoved, TitleDone);
    forall id | id in ids ensures ResourceInOrder(h, id) { ResourceOrder(h, ids, id); }
  }

  lemma ResourceOrder(h: History, ids: set<string>, id: string)
    requires Ordered(h, ids) && id in ids
    ensures ResourceInOrder(h, id)
  {
    PrerequisitePrecedes(h, ids, AncestryVerified(id), ReleasePrepared(id));
    PrerequisitePrecedes(h, ids, AncestryVerified(id), Released(id));
    PrerequisitePrecedes(h, ids, Released(id), ResourcesReleased);
    if TitleDone in h { WholeOrder(h, ids, id); }
  }

  lemma FirstGate(h: History, ids: set<string>)
    requires Ordered(h, ids) && h != []
    ensures h[0] == CleanupPrepared
  {
    assert WellPlaced(h, ids, 0);
    assert forall g: Gate {:trigger Prerequisites(g, ids)} :: g != CleanupPrepared ==> CleanupPrepared in Prerequisites(g, ids);
    assert h[..0] == [];
  }

  lemma WholeOrder(h: History, ids: set<string>, id: string)
    requires Ordered(h, ids) && TitleDone in h && id in ids
    ensures Precedes(h, WorktreeRemoved, TitleDone) && Precedes(h, Released(id), TitleDone)
  {
    PrerequisitePrecedes(h, ids, WorktreeRemoved, TitleDone);
    PrerequisitePrecedes(h, ids, LocalAbsent, WorktreeRemoved);
    PrerequisitePrecedes(h, ids, RemoteAbsent, LocalAbsent);
    PrerequisitePrecedes(h, ids, ResourcesReleased, RemoteAbsent);
    PrerequisitePrecedes(h, ids, Released(id), ResourcesReleased);
    PrecedesTransitive(h, ids, Released(id), ResourcesReleased, RemoteAbsent);
    PrecedesTransitive(h, ids, Released(id), RemoteAbsent, LocalAbsent);
    PrecedesTransitive(h, ids, Released(id), LocalAbsent, WorktreeRemoved);
    PrecedesTransitive(h, ids, Released(id), WorktreeRemoved, TitleDone);
  }

  // ---------- How many gates there can be ----------

  const TASK_GATES: set<Gate> :=
    {CleanupPrepared, ResourcesReleased, RemotePrepared, RemoteAbsent, WorktreePrepared, LocalPrepared,
     LocalAbsent, WorktreeRemoved, TitleUnavailable, TitleVerified, TitleDone}

  ghost function Image(ids: set<string>, f: string -> Gate): set<Gate> { set id | id in ids :: f(id) }

  ghost function AllGates(ids: set<string>): set<Gate> {
    TASK_GATES + Image(ids, id => AncestryVerified(id)) + Image(ids, id => ReleasePrepared(id)) + Image(ids, id => Released(id))
  }

  lemma ConcernedIsListed(g: Gate, ids: set<string>)
    requires Concerns(g, ids)
    ensures g in AllGates(ids)
  {
    match g
    case AncestryVerified(id) =>
      var f := (x: string) => AncestryVerified(x);
      assert f(id) == g && g in Image(ids, f);
    case ReleasePrepared(id) =>
      var f := (x: string) => ReleasePrepared(x);
      assert f(id) == g && g in Image(ids, f);
    case Released(id) =>
      var f := (x: string) => Released(x);
      assert f(id) == g && g in Image(ids, f);
    case _ => assert g in TASK_GATES;
  }

  lemma {:induction false} ImageSize(ids: set<string>, f: string -> Gate)
    ensures |Image(ids, f)| <= |ids|
    decreases ids
  {
    if ids == {} {
      assert Image(ids, f) == {};
    } else {
      var x :| x in ids;
      ImageSize(ids - {x}, f);
      assert Image(ids, f) == Image(ids - {x}, f) + {f(x)};
      UnionSize(Image(ids - {x}, f), {f(x)});
    }
  }

  lemma GateCount(ids: set<string>)
    ensures |AllGates(ids)| <= 3 * |ids| + 11
  {
    var a, b, c := Image(ids, id => AncestryVerified(id)), Image(ids, id => ReleasePrepared(id)), Image(ids, id => Released(id));
    ImageSize(ids, id => AncestryVerified(id));
    ImageSize(ids, id => ReleasePrepared(id));
    ImageSize(ids, id => Released(id));
    assert |TASK_GATES| == 11;
    FourUnions(TASK_GATES, a, b, c);
  }

  lemma FourUnions<T>(a: set<T>, b: set<T>, c: set<T>, d: set<T>)
    ensures |a + b + c + d| <= |a| + |b| + |c| + |d|
  {
    UnionSize(a, b);
    UnionSize(a + b, c);
    UnionSize(a + b + c, d);
  }

  ghost function Elements(h: History): set<Gate> { set g | g in h }

  lemma {:induction false} HistoryLength(h: History, ids: set<string>)
    requires Ordered(h, ids)
    ensures |h| == |Elements(h)| && Elements(h) <= AllGates(ids)
    decreases |h|
  {
    if h == [] {
      assert Elements(h) == {};
    } else {
      var k := |h| - 1;
      assert WellPlaced(h, ids, k);
      forall i | 0 <= i < k ensures WellPlaced(h[..k], ids, i) {
        assert WellPlaced(h, ids, i);
        assert h[..k][..i] == h[..i];
      }
      HistoryLength(h[..k], ids);
      assert Elements(h) == Elements(h[..k]) + {h[k]};
      ConcernedIsListed(h[k], ids);
    }
  }

  // ---------- The records ----------

  /** Records in publication order: each adds one gate to the one before, and only the newest may not be
      durable yet. */
  ghost predicate Chained(records: seq<Record>, ids: set<string>) {
    forall i :: 0 <= i < |records| ==> Link(records, ids, i)
  }

  ghost predicate Link(records: seq<Record>, ids: set<string>, i: nat)
    requires i < |records|
  {
    && |records[i].history| == i + 1 && Ordered(records[i].history, ids)
    && (i > 0 ==> records[i - 1].history == records[i].history[..i])
    && (i < |records| - 1 ==> records[i].durable)
  }

  ghost function Newest(records: seq<Record>): History {
    if records == [] then [] else records[|records| - 1].history
  }

  lemma {:induction false} ChainPrefix(records: seq<Record>, ids: set<string>, i: nat, j: nat)
    requires Chained(records, ids) && i <= j < |records|
    ensures records[i].history <= records[j].history
    decreases j - i
  {
    assert Link(records, ids, j) && Link(records, ids, i);
    if i == j {
    } else {
      ChainPrefix(records, ids, i, j - 1);
      assert Link(records, ids, j - 1);
    }
  }

  /** A chain never reaches the journal's record limit: each record adds a new gate of the task. */
  lemma RecordLimitIsNeverReached(records: seq<Record>, ids: set<string>)
    requires Chained(records, ids) && |ids| <= 100
    ensures |records| <= RECORD_LIMIT
  {
    if records != [] {
      var h := Newest(records);
      assert Link(records, ids, |records| - 1);
      HistoryLength(h, ids);
      GateCount(ids);
      SubsetSize(Elements(h), AllGates(ids));
    }
  }

  function Synchronised(records: seq<Record>): seq<Record> {
    seq(|records|, i requires 0 <= i < |records| => Record(records[i].history, true))
  }

  lemma SynchronisedChained(records: seq<Record>, ids: set<string>)
    requires Chained(records, ids)
    ensures Chained(Synchronised(records), ids) && Newest(Synchronised(records)) == Newest(records)
  {
    forall i | 0 <= i < |records| ensures Link(Synchronised(records), ids, i) { assert Link(records, ids, i); }
  }

  ghost predicate AllDurable(records: seq<Record>) {
    forall i :: 0 <= i < |records| ==> records[i].durable
  }

  lemma PublishChained(records: seq<Record>, ids: set<string>, g: Gate)
    requires Chained(records, ids) && AllDurable(records) && MayFollow(Newest(records), g, ids)
    ensures Chained(records + [Record(Newest(records) + [g], false)], ids)
  {
    var next := records + [Record(Newest(records) + [g], false)];
    if records != [] { assert Link(records, ids, |records| - 1); }
    AppendOrdered(Newest(records), g, ids);
    forall i | 0 <= i < |next| ensures Link(next, ids, i) {
      if i < |records| { assert Link(records, ids, i); }
    }
  }

  /** Losing the newest record, the only one that a power loss can take. */
  lemma LossChained(records: seq<Record>, ids: set<string>)
    requires Chained(records, ids) && records != []
    ensures Chained(records[..|records| - 1], ids) && AllDurable(records[..|records| - 1])
  {
    forall i | 0 <= i < |records| - 1 ensures Link(records[..|records| - 1], ids, i) && records[i].durable {
      assert Link(records, ids, i);
    }
  }

  ghost predicate DurablyHas(records: seq<Record>, g: Gate) {
    exists i :: 0 <= i < |records| && records[i].durable && g in records[i].history
  }

  // ---------- Restart ----------

  function InsertByLength(sorted: seq<History>, h: History): (r: seq<History>)
    ensures |r| == |sorted| + 1
  {
    if sorted == [] || |h| < |sorted[0]| then [h] + sorted else [sorted[0]] + InsertByLength(sorted[1..], h)
  }

  ghost function HistoriesOf(records: seq<Record>, k: nat): seq<History>
    requires k <= |records|
  {
    seq(k, i requires 0 <= i < k => records[i].history)
  }

  /** Whether the records form one monotone history, and the longest of them; records are taken by
      increasing length and each must continue the one before. */
  method MergeHistories(histories: seq<History>) returns (ok: bool, gates: History)
    ensures ok ==> forall i :: 0 <= i < |histories| ==> histories[i] <= gates
    ensures ok && histories != [] ==> gates in histories
    ensures histories == [] ==> ok && gates == []
    ensures !ok ==> Conflicting(histories)
  {
    var sorted: seq<History> := [];
    for k := 0 to |histories|
      invariant SortedCopy(sorted, histories, k)
    {
      InsertKeepsCopy(sorted, histories, k);
      sorted := InsertByLength(sorted, histories[k]);
    }
    ok, gates := true, [];
    for k := 0 to |sorted|
      invariant ok && forall i :: 0 <= i < k ==> sorted[i] <= gates
      invariant if k == 0 then gates == [] else gates == sorted[k - 1]
    {
      if !(gates <= sorted[k]) {
        ClashInOriginal(sorted, histories, k);
        return false, gates;
      }
      gates := sorted[k];
    }
    MergedAll(sorted, histories, gates);
  }

  /** Two histories neither of which continues the other. */
  ghost predicate Conflicting(histories: seq<History>) {
    exists i, j :: 0 <= i < |histories| && 0 <= j < |histories| && Diverge(histories[i], histories[j])
  }

  ghost predicate Diverge(a: History, b: History) { !(a <= b) && !(b <= a) }

  lemma ShorterPrefix(a: History, b: History)
    ensures |a| <= |b| && b <= a ==> a <= b
  {
    if |a| <= |b| && b <= a { assert a == b; }
  }

  ghost predicate Listed(s: seq<History>, h: History) { exists i :: 0 <= i < |s| && s[i] == h }

  ghost predicate ByLength(s: seq<History>) { forall i, j :: 0 <= i < j < |s| ==> |s[i]| <= |s[j]| }

  /** `sorted` holds the first `k` histories, shortest first. */
  ghost predicate SortedCopy(sorted: seq<History>, histories: seq<History>, k: nat) {
    && k <= |histories| && |sorted| == k && ByLength(sorted)
    && (forall i :: 0 <= i < k ==> Listed(sorted, histories[i]))
    && (forall i :: 0 <= i < k ==> Listed(histories[..k], sorted[i]))
  }

  /** Where the history inserted into a list goes. */
  lemma {:induction false} InsertSplits(sorted: seq<History>, h: History) returns (p: nat)
    ensures p <= |sorted| && InsertByLength(sorted, h) == sorted[..p] + [h] + sorted[p..]
    ensures forall i :: 0 <= i < p ==> |sorted[i]| <= |h|
    ensures p < |sorted| ==> |h| < |sorted[p]|
    decreases |sorted|
  {
    p := 0;
    if sorted != [] && |h| >= |sorted[0]| {
      var rest := sorted[1..];
      var q := InsertSplits(rest, h);
      p := q + 1;
      assert sorted[..p] == [sorted[0]] + rest[..q] && sorted[p..] == rest[q..];
      forall i | 0 <= i < p ensures |sorted[i]| <= |h| {
        if i > 0 { assert sorted[i] == rest[i - 1]; }
      }
    }
  }

  lemma InsertedByLength(sorted: seq<History>, h: History, p: nat, r: seq<History>)
    requires ByLength(sorted) && p <= |sorted| && r == sorted[..p] + [h] + sorted[p..]
    requires (forall i :: 0 <= i < p ==> |sorted[i]| <= |h|) && (p < |sorted| ==> |h| < |sorted[p]|)
    ensures ByLength(r)
  {
    forall i, j | 0 <= i < j < |r| ensures |r[i]| <= |r[j]| {
      assert r[i] == if i < p then sorted[i] else if i == p then h else sorted[i - 1];
      assert r[j] == if j < p then sorted[j] else if j == p then h else sorted[j - 1];
    }
  }

  /** Membership in a list with `h` inserted at `p`. */
  lemma ListedInserted(sorted: seq<History>, h: History, p: nat, r: seq<History>, x: History)
    requires p <= |sorted| && r == sorted[..p] + [h] + sorted[p..]
    ensures Listed(r, x) <==> x == h || Listed(sorted, x)
  {
    assert r[p] == h;
    if Listed(sorted, x) {
      var j :| 0 <= j < |sorted| && sorted[j] == x;
      assert r[if j < p then j else j + 1] == x;
    }
    if Listed(r, x) && x != h {
      var i :| 0 <= i < |r| && r[i] == x;
      assert sorted[if i < p then i else i - 1] == x;
    }
  }

  lemma InsertKeepsCopy(sorted: seq<History>, histories: seq<History>, k: nat)
    requires k < |histories| && SortedCopy(sorted, histories, k)
    ensures SortedCopy(InsertByLength(sorted, histories[k]), histories, k + 1)
  {
    var r := InsertByLength(sorted, histories[k]);
    var p := InsertSplits(sorted, histories[k]);
    InsertedByLength(sorted, histories[k], p, r);
    forall i | 0 <= i < k + 1 ensures Listed(r, histories[i]) {
      ListedInserted(sorted, histories[k], p, r, histories[i]);
    }
    forall i | 0 <= i < k + 1 ensures Listed(histories[..k + 1], r[i]) {
      InsertedComesFrom(sorted, histories, k, p, r, i);
    }
  }

  lemma InsertedComesFrom(sorted: seq<History>, histories: seq<History>, k: nat, p: nat, r: seq<History>, i: nat)
    requires k < |histories| && SortedCopy(sorted, histories, k)
    requires p <= k && r == sorted[..p] + [histories[k]] + sorted[p..] && i <= k
    ensures Listed(histories[..k + 1], r[i])
  {
    assert histories[..k + 1] == histories[..k] + [histories[k]] + histories[..k][k..];
    ListedInserted(histories[..k], histories[k], k, histories[..k + 1], r[i]);
    if i < p { assert r[i] == sorted[i]; }
    if i > p { assert r[i] == sorted[i - 1]; }
  }

  lemma ClashInOriginal(sorted: seq<History>, histories: seq<History>, k: nat)
    requires SortedCopy(sorted, histories, |histories|) && 0 < k < |sorted|
    requires !(sorted[k - 1] <= sorted[k])
    ensures Conflicting(histories)
  {
    ShorterPrefix(sorted[k - 1], sorted[k]);
    assert histories[..|histories|] == histories;
    assert Listed(histories, sorted[k - 1]) && Listed(histories, sorted[k]);
    var i :| 0 <= i < |histories| && histories[i] == sorted[k - 1];
    var j :| 0 <= j < |histories| && histories[j] == sorted[k];
  }

  lemma MergedAll(sorted: seq<History>, histories: seq<History>, gates: History)
    requires SortedCopy(sorted, histories, |histories|) && forall i :: 0 <= i < |sorted| ==> sorted[i] <= gates
    requires if sorted == [] then gates == [] else gates == sorted[|sorted| - 1]
    ensures forall i :: 0 <= i < |histories| ==> histories[i] <= gates
    ensures histories != [] ==> gates in histories
  {
    assert histories[..|histories|] == histories;
    forall i | 0 <= i < |histories| ensures histories[i] <= gates {
      assert Listed(sorted, histories[i]);
    }
    if histories != [] { assert Listed(histories, sorted[|sorted| - 1]); }
  }

  /** On the records that interrupted runs leave, merging always succeeds and finds the newest history. */
  lemma ChainMerges(records: seq<Record>, ids: set<string>, histories: seq<History>, gates: History)
    requires Chained(records, ids) && records != [] && histories == HistoriesOf(records, |records|)
    requires gates in histories && forall i :: 0 <= i < |histories| ==> histories[i] <= gates
    ensures gates == Newest(records)
  {
    var i :| 0 <= i < |histories| && histories[i] == gates;
    ChainPrefix(records, ids, i, |records| - 1);
    assert histories[|records| - 1] <= gates;
  }
}
