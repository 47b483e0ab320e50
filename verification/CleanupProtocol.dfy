/** The completed-task cleanup as a resumable protocol: live checks, prepared gates, destructive steps and
    absence gates, under outside interference, refusals and power loss at every point. */
module CleanupProtocol {
  import opened PythonText
  import opened Cardinality
  import opened CleanupJournal

  datatype Resource = Resource(id: string, generated: bool)

  /** What the checks can see of the world outside the journal: the two task refs, the worktree, the
      resources still present, whether every other live condition (merged pull request, closed issues,
      idle and unheld task, clean exclusive worktree, matching identities) holds, and whether the
      controller can change titles. */
  datatype World = World(remote: Option<nat>, local: Option<nat>, worktree: bool,
                         present: set<string>, eligible: bool, titles: bool)

  /** What one external call meets: the outside world may have changed in any way before it; it succeeds,
      fails, or power is lost. */
  datatype Answer =
    | Proceed(world: World)
    | Fail(world: World, leavesPending: bool)
    | PowerLoss(world: World, keepsRecord: bool, leavesPending: bool)

  datatype Outcome = Completed | Refused | Lost

  datatype Action = RemoveTree(id: string) | ReleaseTool(id: string) | DeleteRemote | RemoveWorktree | DeleteLocal

  function PreparedGate(a: Action): Gate {
    match a
    case RemoveTree(id) => ReleasePrepared(id)
    case ReleaseTool(id) => ReleasePrepared(id)
    case DeleteRemote => RemotePrepared
    case RemoveWorktree => WorktreePrepared
    case DeleteLocal => LocalPrepared
  }

  /** The gate closing the stage before the action. */
  function PreviousStage(a: Action): Gate {
    match a
    case RemoveTree(id) => AncestryVerified(id)
    case ReleaseTool(id) => AncestryVerified(id)
    case DeleteRemote => ResourcesReleased
    case RemoveWorktree => RemoteAbsent
    case DeleteLocal => RemoteAbsent
  }

  /** The compare half of compare-and-delete. */
  predicate Held(a: Action, w: World, head: nat) {
    (a.DeleteRemote? ==> w.remote == Some(head)) && (a.DeleteLocal? ==> w.local == Some(head))
  }

  function Effect(a: Action, w: World): World {
    match a
    case RemoveTree(id) => w.(present := w.present - {id})
    case ReleaseTool(id) => w.(present := w.present - {id})
    case DeleteRemote => w.(remote := None)
    case RemoveWorktree => w.(worktree := false)
    case DeleteLocal => w.(local := None)
  }

  // ---------- What a run has observed ----------

  /** A ref is absent, or, unless it has to be, still at the recorded head. */
  predicate RefAllowed(r: Option<nat>, head: nat, gone: bool) { r == None || (!gone && r == Some(head)) }

  predicate Over(h: History, id: string) { Released(id) in h || ResourcesReleased in h }

  ghost predicate SawEligible(log: seq<World>, from: nat) {
    exists i :: from <= i < |log| && log[i].eligible
  }

  ghost predicate SawRemote(log: seq<World>, from: nat, head: nat, gone: bool) {
    exists i :: from <= i < |log| && RefAllowed(log[i].remote, head, gone)
  }

  ghost predicate SawLocal(log: seq<World>, from: nat, head: nat, gone: bool) {
    exists i :: from <= i < |log| && RefAllowed(log[i].local, head, gone)
  }

  ghost predicate SawWorktreeGone(log: seq<World>, from: nat) {
    exists i :: from <= i < |log| && !log[i].worktree
  }

  ghost predicate SawAbsent(log: seq<World>, from: nat, id: string) {
    exists i :: from <= i < |log| && id !in log[i].present
  }

  /** Everything an eligibility check has to have seen since `from`, given the gates on record. */
  ghost predicate Passed(log: seq<World>, from: nat, h: History, ids: set<string>, head: nat) {
    && SawEligible(log, from)
    && SawRemote(log, from, head, RemoteAbsent in h) && SawLocal(log, from, head, LocalAbsent in h)
    && (WorktreeRemoved in h ==> SawWorktreeGone(log, from))
    && forall id :: id in ids && Over(h, id) ==> SawAbsent(log, from, id)
  }

  lemma LaterLog(log: seq<World>, later: seq<World>, from: nat, after: nat, head: nat)
    requires log <= later && after <= from
    ensures SawEligible(log, from) ==> SawEligible(later, after)
    ensures forall gone :: SawRemote(log, from, head, gone) ==> SawRemote(later, after, head, gone)
    ensures forall gone :: SawLocal(log, from, head, gone) ==> SawLocal(later, after, head, gone)
    ensures SawWorktreeGone(log, from) ==> SawWorktreeGone(later, after)
    ensures forall id :: SawAbsent(log, from, id) ==> SawAbsent(later, after, id)
  {
    assert forall i :: 0 <= i < |log| ==> log[i] == later[i];
  }

  /** Sightings are never lost as the log grows. */
  ghost predicate Kept(log: seq<World>, later: seq<World>) {
    (SawEligible(log, 0) ==> SawEligible(later, 0)) && forall id :: SawAbsent(log, 0, id) ==> SawAbsent(later, 0, id)
  }

  lemma KeptLater(log: seq<World>, later: seq<World>)
    requires log <= later
    ensures Kept(log, later)
  {
    LaterLog(log, later, 0, 0, 0);
  }

  lemma LaterPassed(log: seq<World>, from: nat, after: nat, h: History, ids: set<string>, head: nat)
    requires Passed(log, from, h, ids, head) && after <= from
    ensures Passed(log, after, h, ids, head)
  {
    LaterLog(log, log, from, after, head);
  }

  ghost function IdsOf(resources: seq<Resource>): set<string> { set r | r in resources :: r.id }

  lemma PassedBy(log0: seq<World>, mid: seq<World>, log: seq<World>, h: History, resources: seq<Resource>, head: nat)
    requires log0 <= mid <= log
    requires forall r :: r in resources && Over(h, r.id) ==> SawAbsent(mid, |log0|, r.id)
    requires SawEligible(log, |mid|) && (WorktreeRemoved in h ==> SawWorktreeGone(log, |mid|))
    requires SawRemote(log, |mid|, head, RemoteAbsent in h) && SawLocal(log, |mid|, head, LocalAbsent in h)
    ensures Passed(log, |log0|, h, IdsOf(resources), head)
  {
    LaterLog(mid, log, |log0|, |log0|, head);
    LaterLog(log, log, |mid|, |log0|, head);
  }

  /** What a run must have seen, and how far it had got when it last checked eligibility, to record a gate. */
  ghost predicate Attested(g: Gate, log: seq<World>, vetted: History, ids: set<string>, head: nat) {
    && SawEligible(log, 0)
    && (g.Released? ==> SawAbsent(log, 0, g.id))
    && (g.ResourcesReleased? ==> forall id :: id in ids ==> SawAbsent(log, 0, id))
    && (g.RemoteAbsent? ==> SawRemote(log, 0, head, true) && ResourcesReleased in vetted)
    && (g.LocalAbsent? ==> SawLocal(log, 0, head, true) && RemoteAbsent in vetted)
    && (g.WorktreeRemoved? ==> SawWorktreeGone(log, 0))
    && (g.TitleUnavailable? || g.TitleVerified? ==> WorktreeRemoved in vetted)
    && (g.TitleDone? ==> TitleUnavailable in vetted || TitleVerified in vetted)
  }

  function Extended(h: History, g: Gate): History { if g in h then h else h + [g] }

  // ---------- Events ----------

  /** A destructive step or a published record, with what was true at that moment. */
  datatype Event =
    | Destroy(action: Action, before: World, records: seq<Record>, log: seq<World>, vetted: History)
    | Publish(gate: Gate, log: seq<World>, vetted: History)

  ghost predicate GoodEvent(e: Event, ids: set<string>, head: nat) {
    match e
    case Destroy(a, before, records, log, vetted) =>
      && Chained(records, ids) && DurablyHas(records, PreparedGate(a))
      && SawEligible(log, 0) && PreviousStage(a) in vetted
      && (a.DeleteRemote? ==> before.remote == Some(head))
      && (a.DeleteLocal? ==> before.local == Some(head))
    case Publish(g, log, vetted) => Attested(g, log, vetted, ids, head)
  }

  /** The journal still durably shows why the destructive step was allowed. */
  ghost predicate Remembered(e: Event, records: seq<Record>) {
    e.Destroy? ==> DurablyHas(records, PreparedGate(e.action))
  }

  lemma DurablyBefore(records: seq<Record>, ids: set<string>, p: Gate, g: Gate)
    requires Chained(records, ids) && DurablyHas(records, g) && p in Prerequisites(g, ids)
    ensures DurablyHas(records, p)
  {
    var i :| 0 <= i < |records| && records[i].durable && g in records[i].history;
    assert Link(records, ids, i);
    PrerequisitePrecedes(records[i].history, ids, p, g);
    assert p in records[i].history;
  }

  /** A step that ever happened had every earlier stage durably on record. */
  lemma DestructionOrder(e: Event, ids: set<string>, head: nat, id: string)
    requires e.Destroy? && GoodEvent(e, ids, head)
    ensures DurablyHas(e.records, CleanupPrepared)
    ensures e.action.RemoveTree? || e.action.ReleaseTool? ==> DurablyHas(e.records, AncestryVerified(e.action.id))
    ensures !(e.action.RemoveTree? || e.action.ReleaseTool?) && id in ids ==> DurablyHas(e.records, Released(id))
    ensures e.action.RemoveWorktree? || e.action.DeleteLocal? ==> DurablyHas(e.records, RemoteAbsent)
  {
    var g := PreparedGate(e.action);
    DurablyBefore(e.records, ids, CleanupPrepared, g);
    if e.action.RemoveTree? || e.action.ReleaseTool? {
      DurablyBefore(e.records, ids, AncestryVerified(e.action.id), g);
    } else {
      if !e.action.DeleteRemote? {
        DurablyBefore(e.records, ids, RemoteAbsent, g);
        DurablyBefore(e.records, ids, ResourcesReleased, RemoteAbsent);
      } else {
        DurablyBefore(e.records, ids, ResourcesReleased, g);
      }
      if id in ids { DurablyBefore(e.records, ids, Released(id), ResourcesReleased); }
    }
  }

  // ---------- Power loss and the records ----------

  /** A power loss can take the newest record, and only while it is not durable. */
  function AfterLoss(records: seq<Record>, keep: bool): seq<Record> {
    if records == [] || keep || records[|records| - 1].durable then Synchronised(records)
    else records[..|records| - 1]
  }

  ghost predicate NoNewRecord(before: seq<Record>, after: seq<Record>) {
    |after| <= |before| && forall i :: 0 <= i < |after| ==> after[i].history == before[i].history
  }

  lemma DurableSurvives(records: seq<Record>, keep: bool, g: Gate)
    requires DurablyHas(records, g)
    ensures DurablyHas(AfterLoss(records, keep), g) && DurablyHas(Synchronised(records), g)
  {
    var i :| 0 <= i < |records| && records[i].durable && g in records[i].history;
    assert Synchronised(records)[i].history == records[i].history;
    if i < |AfterLoss(records, keep)| { assert AfterLoss(records, keep)[i].history == records[i].history; }
  }

  lemma LossKeepsChain(records: seq<Record>, keep: bool, ids: set<string>)
    requires Chained(records, ids)
    ensures Chained(AfterLoss(records, keep), ids) && NoNewRecord(records, AfterLoss(records, keep))
  {
    SynchronisedChained(records, ids);
    if records != [] { LossChained(records, ids); }
  }

  lemma NewestDurable(records: seq<Record>, g: Gate)
    requires AllDurable(records) && g in Newest(records)
    ensures DurablyHas(records, g)
  {
    assert records[|records| - 1].durable;
  }

  lemma DurableIsNewest(records: seq<Record>, ids: set<string>, g: Gate)
    requires Chained(records, ids) && DurablyHas(records, g)
    ensures g in Newest(records)
  {
    var i :| 0 <= i < |records| && records[i].durable && g in records[i].history;
    ChainPrefix(records, ids, i, |records| - 1);
    var k :| 0 <= k < |records[i].history| && records[i].history[k] == g;
    assert Newest(records)[k] == g;
  }

  lemma ChainAgrees(records: seq<Record>, ids: set<string>)
    requires Chained(records, ids)
    ensures !Conflicting(HistoriesOf(records, |records|))
  {
    var s := HistoriesOf(records, |records|);
    forall i, j | 0 <= i < |s| && 0 <= j < |s| ensures !Diverge(s[i], s[j]) {
      if i <= j { ChainPrefix(records, ids, i, j); } else { ChainPrefix(records, ids, j, i); }
    }
  }

  // ---------- The task's site ----------

  /** What outlives a run: the handoff, the world, the evidence directory and the script of what every
      external call will meet. */
  class Site {
    const resources: seq<Resource>
    const head: nat
    var world: World
    var records: seq<Record>
    var pending: bool
    var answers: seq<Answer>
    ghost var events: set<Event>

    constructor (resources: seq<Resource>, head: nat, world: World)
      ensures Valid() && this.resources == resources && this.head == head && this.world == world
      ensures records == [] && !pending && events == {} && answers == []
    {
      this.resources, this.head, this.world := resources, head, world;
      records, pending, answers, events := [], false, [], {};
    }

    ghost function Ids(): set<string> { IdsOf(resources) }

    /** Records chain, every step so far was permitted, and the journal remembers each destructive one. */
    ghost predicate Valid()
      reads this
    {
      && Chained(records, Ids())
      && forall e :: e in events ==> GoodEvent(e, Ids(), head) && Remembered(e, records)
    }

    method LosePower(keep: bool, leavesPending: bool)
      requires Valid()
      modifies this`records, this`pending
      ensures Valid() && records == AfterLoss(old(records), keep) && pending == leavesPending
      ensures NoNewRecord(old(records), records)
    {
      LossKeepsChain(records, keep, Ids());
      forall e | e in events ensures Remembered(e, AfterLoss(records, keep)) {
        if e.Destroy? { DurableSurvives(records, keep, PreparedGate(e.action)); }
      }
      records := AfterLoss(records, keep);
      pending := leavesPending;
    }

    method Synchronise()
      requires Valid()
      modifies this`records
      ensures Valid() && records == Synchronised(old(records))
      ensures AllDurable(records) && Newest(records) == Newest(old(records)) && NoNewRecord(old(records), records)
    {
      SynchronisedChained(records, Ids());
      forall e | e in events ensures Remembered(e, Synchronised(records)) {
        if e.Destroy? { DurableSurvives(records, true, PreparedGate(e.action)); }
      }
      records := Synchronised(records);
    }

    /** Whatever was ever destroyed, the history that a restart restores names its prepared gate. */
    lemma RestartKnows(e: Event)
      requires Valid() && e in events && e.Destroy?
      ensures PreparedGate(e.action) in Newest(records)
    {
      DurableIsNewest(records, Ids(), PreparedGate(e.action));
    }

    /** Every record ever published obeys the teardown order, with or without resources. */
    lemma EveryRecordInOrder(i: nat)
      requires Valid() && i < |records|
      ensures records[i].history != [] && records[i].history[0] == CleanupPrepared
      ensures StagesInOrder(records[i].history)
      ensures forall id :: id in Ids() ==> ResourceInOrder(records[i].history, id)
    {
      assert Link(records, Ids(), i);
      TeardownOrder(records[i].history, Ids());
    }

    /** Any external call: interference, then success, failure or power loss. */
    method Call() returns (o: Outcome)
      requires Valid()
      modifies this`world, this`answers, this`records, this`pending
      ensures Valid() && NoNewRecord(old(records), records)
      ensures o == Completed ==> records == old(records) && pending == old(pending)
      ensures old(answers) == [] ==> o == Completed && world == old(world) && answers == []
    {
      if answers == [] { return Completed; }
      var answer := answers[0];
      answers := answers[1..];
      world := answer.world;
      match answer
      case Proceed(_) => o := Completed;
      case Fail(_, leaves) =>
        pending := pending || leaves;
        o := Refused;
      case PowerLoss(_, keep, leaves) =>
        LosePower(keep, leaves);
        o := Lost;
    }

    /** The rename that publishes a record: visible now, durable at the next synchronisation. */
    method Rename(h: History, g: Gate, ghost log: seq<World>, ghost vetted: History)
      requires Valid() && AllDurable(records) && h == Newest(records)
      requires MayFollow(h, g, Ids()) && Attested(g, log, vetted, Ids(), head)
      modifies this`records, this`pending, this`events
      ensures Valid() && records == old(records) + [Record(h + [g], false)] && !pending
      ensures events == old(events) + {Publish(g, log, vetted)}
    {
      PublishChained(records, Ids(), g);
      ghost var before := records;
      records := records + [Record(h + [g], false)];
      pending := false;
      events := events + {Publish(g, log, vetted)};
      forall e | e in old(events) ensures Remembered(e, records) { StaysDurable(before, e); }
    }

    lemma StaysDurable(before: seq<Record>, e: Event)
      requires before <= records && Remembered(e, before)
      ensures Remembered(e, records)
    {
      if e.Destroy? {
        var g := PreparedGate(e.action);
        var i :| 0 <= i < |before| && before[i].durable && g in before[i].history;
        assert records[i] == before[i];
      }
    }

    /** The destructive call itself. Ref deletion is compare-and-delete against the recorded head. */
    method Destroy(a: Action, ghost log: seq<World>, ghost vetted: History) returns (done: bool)
      requires Valid() && DurablyHas(records, PreparedGate(a)) && SawEligible(log, 0) && PreviousStage(a) in vetted
      modifies this`world, this`events
      ensures Valid()
      ensures done <==> Held(a, old(world), head)
      ensures world == if done then Effect(a, old(world)) else old(world)
      ensures events == if done then old(events) + {Event.Destroy(a, old(world), records, log, vetted)} else old(events)
    {
      done := Held(a, world, head);
      if done {
        events := events + {Event.Destroy(a, world, records, log, vetted)};
        world := Effect(a, world);
      }
    }
  }
  // ---------- One run ----------

  /** The world agrees with the gates on record and nothing outside blocks the cleanup. */
  ghost predicate Consistent(w: World, h: History, ids: set<string>, head: nat) {
    && w.eligible && RefAllowed(w.remote, head, RemoteAbsent in h) && RefAllowed(w.local, head, LocalAbsent in h)
    && (WorktreeRemoved in h ==> !w.worktree)
    && forall id :: id in ids && Over(h, id) ==> id !in w.present
  }

  /** A gate that claims no absence. */
  predicate Harmless(g: Gate) {
    !(g.Released? || g.ResourcesReleased? || g.RemoteAbsent? || g.LocalAbsent? || g.WorktreeRemoved?)
  }

  lemma HarmlessExtension(w: World, h: History, g: Gate, ids: set<string>, head: nat)
    requires Consistent(w, h, ids, head) && Harmless(g)
    ensures Consistent(w, Extended(h, g), ids, head)
  {
  }

  lemma ReleasedExtension(w: World, h: History, id: string, ids: set<string>, head: nat)
    requires Consistent(w, h, ids, head) && id !in w.present
    ensures Consistent(w, Extended(h, Released(id)), ids, head)
  {
  }

  lemma ReleaseMayBePrepared(h: History, id: string, ids: set<string>)
    requires Started(h, id) && id in ids && ReleasePrepared(id) !in h
    ensures MayFollow(h, ReleasePrepared(id), ids)
  {
  }

  lemma MayBeReleased(h: History, id: string, ids: set<string>)
    requires Started(h, id) && id in ids && Released(id) !in h
    ensures MayFollow(h, Released(id), ids)
  {
  }

  lemma StillRecorded(h: History, later: History)
    requires h <= later
    ensures forall g :: g in h ==> g in later
  {
  }

  lemma ReleasedHasAncestry(records: seq<Record>, ids: set<string>, id: string)
    requires Chained(records, ids) && Released(id) in Newest(records)
    ensures AncestryVerified(id) in Newest(records)
  {
    assert Link(records, ids, |records| - 1);
    PrerequisitePrecedes(Newest(records), ids, AncestryVerified(id), Released(id));
  }

  lemma AllAbsentSeen(log: seq<World>, resources: seq<Resource>)
    requires forall r :: r in resources ==> SawAbsent(log, 0, r.id)
    ensures forall id :: id in IdsOf(resources) ==> SawAbsent(log, 0, id)
  {
  }

  lemma ResourcesMayClose(h: History, resources: seq<Resource>)
    requires CleanupPrepared in h && forall r :: r in resources ==> Released(r.id) in h
    ensures ResourcesReleased in h || MayFollow(h, ResourcesReleased, IdsOf(resources))
  {
  }

  lemma ClosedExtension(w: World, h: History, resources: seq<Resource>, head: nat)
    requires Consistent(w, h, IdsOf(resources), head) && forall r :: r in resources ==> Released(r.id) in h
    ensures Consistent(w, Extended(h, ResourcesReleased), IdsOf(resources), head)
  {
    forall id | id in IdsOf(resources) ensures id !in w.present { assert Over(h, id); }
  }

  ghost predicate Reached(h: History, g: Gate) { CleanupPrepared in h && g in h }

  lemma StageMayFollow(h: History, stage: Gate, g: Gate, ids: set<string>)
    requires Reached(h, stage) && Prerequisites(g, ids) == {CleanupPrepared, stage} && Concerns(g, ids)
    ensures g in h || MayFollow(h, g, ids)
  {
  }

  lemma AbsenceExtension(w: World, h: History, g: Gate, ids: set<string>, head: nat)
    requires Consistent(w, h, ids, head) && g in {RemoteAbsent, LocalAbsent, WorktreeRemoved}
    ensures g == RemoteAbsent && w.remote == None ==> Consistent(w, Extended(h, g), ids, head)
    ensures g == LocalAbsent && w.local == None ==> Consistent(w, Extended(h, g), ids, head)
    ensures g == WorktreeRemoved && !w.worktree ==> Consistent(w, Extended(h, g), ids, head)
  {
  }

  /** Nothing of the task is left. */
  ghost predicate Finished(w: World, ids: set<string>) {
    w.remote == None && w.local == None && !w.worktree && w.present !! ids
  }

  /** With the last gate on record, a world that agrees with the record has nothing left. */
  lemma FinishedAtEnd(w: World, records: seq<Record>, ids: set<string>, head: nat)
    requires Chained(records, ids) && TitleDone in Newest(records) && Consistent(w, Newest(records), ids, head)
    ensures Finished(w, ids)
  {
    var h := Newest(records);
    assert Link(records, ids, |records| - 1);
    PrerequisitePrecedes(h, ids, WorktreeRemoved, TitleDone);
    PrerequisitePrecedes(h, ids, LocalAbsent, WorktreeRemoved);
    PrerequisitePrecedes(h, ids, RemoteAbsent, LocalAbsent);
    PrerequisitePrecedes(h, ids, ResourcesReleased, RemoteAbsent);
    forall id | id in ids ensures id !in w.present { assert Over(h, id); }
  }

  /** No two resources share an identity, none is empty and there are at most a hundred. */
  predicate WellIdentified(resources: seq<Resource>) {
    && |resources| <= 100
    && (forall i :: 0 <= i < |resources| ==> resources[i].id != "")
    && forall i, j :: 0 <= i < j < |resources| ==> resources[i].id != resources[j].id
  }

  ghost predicate Started(h: History, id: string) { CleanupPrepared in h && AncestryVerified(id) in h }

  lemma {:induction false} IdentityCount(resources: seq<Resource>)
    ensures |IdsOf(resources)| <= |resources|
    decreases |resources|
  {
    if resources == [] {
      assert IdsOf(resources) == {};
    } else {
      var k := |resources| - 1;
      IdentityCount(resources[..k]);
      assert IdsOf(resources) == IdsOf(resources[..k]) + {resources[k].id};
      UnionSize(IdsOf(resources[..k]), {resources[k].id});
    }
  }

  class Cleanup {
    const site: Site
    const execute: bool
    var gates: History
    ghost var log: seq<World>
    ghost var vetted: History

    constructor (site: Site, execute: bool)
      ensures this.site == site && this.execute == execute && gates == [] && log == [] && vetted == []
    {
      this.site, this.execute := site, execute;
      gates, log, vetted := [], [], [];
    }

    /** An executing run holds exactly the newest record, and that record is durable. */
    ghost predicate Live()
      reads this, site
    {
      site.Valid() && (execute ==> gates == Newest(site.records) && AllDurable(site.records) && !site.pending)
    }

    ghost predicate Onward(gates0: History, log0: seq<World>, o: Outcome)
      reads this, site
    {
      site.Valid() && (o == Completed ==> Live() && gates0 <= gates && log0 <= log)
    }

    /** A preview has neither destroyed nor published anything. */
    ghost predicate Inert(events0: set<Event>, records0: seq<Record>, o: Outcome)
      reads this, site
    {
      !execute ==> && site.events == events0 && NoNewRecord(records0, site.records)
                   && (o == Completed ==> site.records == records0)
    }

    /** No interference is to come and the world is in order. */
    ghost predicate Smooth()
      reads this, site
    {
      && execute && site.answers == [] && WellIdentified(site.resources)
      && Consistent(site.world, gates, site.Ids(), site.head)
    }

    // ---------- Checks ----------

    /** One look at the world. */
    method Observe() returns (o: Outcome)
      requires Live()
      modifies this`log, site
      ensures Onward(old(gates), old(log), o) && Inert(old(site.events), old(site.records), o)
      ensures o == Completed ==> log == old(log) + [site.world]
      ensures old(Smooth()) ==> o == Completed && Smooth() && site.world == old(site.world)
    {
      o := site.Call();
      if o == Completed { log := log + [site.world]; }
    }

    /** A look that demands the conditions summed up in `eligible`. */
    method Check() returns (o: Outcome)
      requires Live()
      modifies this`log, site
      ensures Onward(old(gates), old(log), o) && Inert(old(site.events), old(site.records), o)
      ensures o == Completed ==> SawEligible(log, |old(log)|)
      ensures old(Smooth()) ==> o == Completed && Smooth() && site.world == old(site.world)
    {
      o := Observe();
      if o != Completed { return; }
      if !site.world.eligible { return Refused; }
      assert log[|old(log)|].eligible;
    }

    /** Refuses refs that moved and anything that reappeared after its absence gate. */
    method LocalState() returns (o: Outcome)
      requires Live()
      modifies this`log, site
      ensures Onward(old(gates), old(log), o) && Inert(old(site.events), old(site.records), o)
      ensures o == Completed ==> SawEligible(log, |old(log)|)
      ensures o == Completed ==> SawRemote(log, |old(log)|, site.head, RemoteAbsent in gates)
      ensures o == Completed ==> SawLocal(log, |old(log)|, site.head, LocalAbsent in gates)
      ensures o == Completed && WorktreeRemoved in gates ==> SawWorktreeGone(log, |old(log)|)
      ensures old(Smooth()) ==> o == Completed && Smooth() && site.world == old(site.world)
    {
      o := Check();
      if o != Completed { return; }
      o := Observe();
      if o != Completed { return; }
      var local := site.world.local;
      if !RefAllowed(local, site.head, false) { return Refused; }
      o := Observe();
      if o != Completed { return; }
      var remote := site.world.remote;
      if !RefAllowed(remote, site.head, false) { return Refused; }
      if RemoteAbsent in gates && remote != None { return Refused; }
      if LocalAbsent in gates && local != None { return Refused; }
      ghost var n := |log|;
      assert log[n - 1].remote == remote && log[n - 2].local == local;
      o := Observe();
      if o != Completed { return; }
      if WorktreeRemoved in gates && site.world.worktree { return Refused; }
      assert log[n] == site.world && log[n - 1].remote == remote && log[n - 2].local == local;
    }

    /** Demands that every resource, or every one already released, is still absent. */
    method VerifyAbsent(completedOnly: bool) returns (o: Outcome)
      requires Live()
      modifies this`log, site
      ensures Onward(old(gates), old(log), o) && Inert(old(site.events), old(site.records), o)
      ensures o == Completed ==> forall r :: r in site.resources && (completedOnly ==> Over(gates, r.id)) ==>
        SawAbsent(log, |old(log)|, r.id)
      ensures old(Smooth()) && (completedOnly || forall r :: r in site.resources ==> r.id !in old(site.world).present) ==>
        o == Completed && Smooth() && site.world == old(site.world)
    {
      o := Completed;
      for i := 0 to |site.resources|
        invariant o == Completed && Live() && old(log) <= log && Inert(old(site.events), old(site.records), o)
        invariant forall j :: 0 <= j < i && (completedOnly ==> Over(gates, site.resources[j].id)) ==>
          SawAbsent(log, |old(log)|, site.resources[j].id)
        invariant old(Smooth()) && (completedOnly || forall r :: r in site.resources ==> r.id !in old(site.world).present) ==>
          Smooth() && site.world == old(site.world)
      {
        var r := site.resources[i];
        if !completedOnly || Over(gates, r.id) {
          ghost var before := log;
          assert r.id in site.Ids();
          o := Observe();
          if o != Completed { return; }
          if r.id in site.world.present || !site.world.eligible { return Refused; }
          assert log[|before|] == site.world;
          LaterLog(before, log, |old(log)|, |old(log)|, site.head);
        }
      }
    }

    /** The part of the check that comes after the live identity was confirmed. */
    method Recheck() returns (o: Outcome)
      requires Live()
      modifies this`log, site
      ensures Onward(old(gates), old(log), o) && Inert(old(site.events), old(site.records), o)
      ensures o == Completed ==> Passed(log, |old(log)|, gates, site.Ids(), site.head)
      ensures old(Smooth()) ==> o == Completed && Smooth() && site.world == old(site.world)
    {
      o := VerifyAbsent(true);
      if o != Completed { return; }
      ghost var late := log;
      o := LocalState();
      if o != Completed { return; }
      PassedBy(old(log), late, log, gates, site.resources, site.head);
    }

    /** The full live check; `vetted` notes the gates it was made against. */
    method Eligibility() returns (o: Outcome)
      requires Live()
      modifies this`log, this`vetted, site
      ensures Onward(old(gates), old(log), o) && Inert(old(site.events), old(site.records), o)
      ensures o == Completed ==> vetted == gates && Passed(log, |old(log)|, gates, site.Ids(), site.head)
      ensures old(Smooth()) ==> o == Completed && Smooth() && site.world == old(site.world)
    {
      o := Check();
      if o != Completed { return; }
      o := LocalState();
      if o != Completed { return; }
      if execute {
        o := Check();
        if o != Completed { return; }
      }
      ghost var mid := log;
      o := Recheck();
      if o != Completed { return; }
      LaterPassed(log, |mid|, |old(log)|, gates, site.Ids(), site.head);
      vetted := gates;
    }

    // ---------- Journal ----------

    /** Recovers the one monotone history, or refuses. */
    method RestoreGates() returns (o: Outcome)
      requires site.Valid() && |site.resources| <= 100
      modifies this`gates, site
      ensures site.Valid() && site.events == old(site.events) && NoNewRecord(old(site.records), site.records)
      ensures o == Completed ==> Live() && gates == Newest(site.records) == Newest(old(site.records)) && !site.pending
      ensures old(site.pending) ==> o == Refused && site.records == old(site.records)
      ensures old(site.answers) == [] && !old(site.pending) ==>
        o == Completed && site.answers == [] && site.world == old(site.world)
    {
      if site.pending { return Refused; }
      IdentityCount(site.resources);
      RecordLimitIsNeverReached(site.records, site.Ids());
      if |site.records| > RECORD_LIMIT { return Refused; }
      if site.records != [] {
        o := site.Call();
        if o != Completed { return; }
        site.Synchronise();
      }
      var histories := seq(|site.records|, i requires 0 <= i < |site.records| reads site => site.records[i].history);
      assert histories == HistoriesOf(site.records, |site.records|);
      var ok, merged := MergeHistories(histories);
      ChainAgrees(site.records, site.Ids());
      if !ok { return Refused; }
      if site.records != [] { ChainMerges(site.records, site.Ids(), histories, merged); }
      gates := merged;
      o := Completed;
    }

    /** Publishes the history extended by one gate: staged, flushed, renamed, synchronised. */
    method Publish(g: Gate) returns (o: Outcome)
      requires Live() && execute && MayFollow(gates, g, site.Ids())
      requires Attested(g, log, vetted, site.Ids(), site.head)
      modifies site
      ensures site.Valid()
      ensures o == Completed ==>
        Newest(site.records) == gates + [g] && AllDurable(site.records) && !site.pending
      ensures old(site.answers) == [] ==> o == Completed && site.answers == [] && site.world == old(site.world)
    {
      o := site.Call();
      if o != Completed { return; }
      site.pending := true;
      o := site.Call();
      if o != Completed { return; }
      site.Rename(gates, g, log, vetted);
      o := site.Call();
      if o != Completed { return; }
      site.Synchronise();
    }

    /** Records a gate once, durably; a preview only notes it. */
    method Record(g: Gate) returns (o: Outcome)
      requires Live()
      requires execute && g !in gates ==>
        MayFollow(gates, g, site.Ids()) && Attested(g, log, vetted, site.Ids(), site.head)
      modifies this`gates, site
      ensures Onward(old(gates), old(log), o) && Inert(old(site.events), old(site.records), o)
      ensures o == Completed ==> gates == Extended(old(gates), g)
      ensures old(Smooth()) && Consistent(old(site.world), Extended(old(gates), g), site.Ids(), site.head) ==>
        o == Completed && Smooth() && site.world == old(site.world)
    {
      if g in gates { return Completed; }
      o := Completed;
      if execute {
        o := Publish(g);
        if o != Completed { return; }
      }
      gates := gates + [g];
    }

    /** One destructive step, reported back by its own call. */
    method Perform(a: Action) returns (o: Outcome)
      requires Live() && execute && PreparedGate(a) in gates && SawEligible(log, 0) && PreviousStage(a) in vetted
      modifies site
      ensures Onward(gates, log, o)
      ensures old(Smooth()) && Held(a, old(site.world), site.head) ==>
        o == Completed && Smooth() && site.world == Effect(a, old(site.world))
    {
      o := site.Call();
      if o != Completed { return; }
      NewestDurable(site.records, PreparedGate(a));
      var done := site.Destroy(a, log, vetted);
      if !done { return Refused; }
      o := site.Call();
    }

    // ---------- Resources ----------

    /** A look at one resource. */
    method Inspect(id: string) returns (o: Outcome, absent: bool)
      requires Live()
      modifies this`log, site
      ensures Onward(old(gates), old(log), o) && Inert(old(site.events), old(site.records), o)
      ensures o == Completed ==> absent == (id !in site.world.present)
      ensures o == Completed ==> Kept(old(log), log) && (absent ==> SawAbsent(log, 0, id))
      ensures old(Smooth()) ==> o == Completed && Smooth() && site.world == old(site.world)
    {
      absent := false;
      o := Observe();
      if o != Completed { return; }
      absent := id !in site.world.present;
      assert log[|old(log)|] == site.world;
      KeptLater(old(log), log);
    }

    /** A final inspection demands that the resource is still there to be released. */
    method InspectPresent(id: string) returns (o: Outcome)
      requires Live()
      modifies this`log, site
      ensures Onward(old(gates), old(log), o) && Inert(old(site.events), old(site.records), o)
      ensures o == Completed ==> Kept(old(log), log)
      ensures old(Smooth()) && id in old(site.world).present ==>
        o == Completed && Smooth() && site.world == old(site.world)
    {
      o := Check();
      if o != Completed { return; }
      KeptLater(old(log), log);
      var absent;
      o, absent := Inspect(id);
      if o != Completed { return; }
      if absent { return Refused; }
    }

    method RecordPrepared(id: string) returns (o: Outcome)
      requires Live() && execute && id in site.Ids() && Started(gates, id) && SawEligible(log, 0)
      modifies this`gates, site
      ensures Onward(old(gates), old(log), o) && Inert(old(site.events), old(site.records), o)
      ensures o == Completed ==> ReleasePrepared(id) in gates
      ensures old(Smooth()) ==> o == Completed && Smooth() && site.world == old(site.world)
    {
      if ReleasePrepared(id) !in gates {
        ReleaseMayBePrepared(gates, id, site.Ids());
        if Smooth() { HarmlessExtension(site.world, gates, ReleasePrepared(id), site.Ids(), site.head); }
      }
      o := Record(ReleasePrepared(id));
    }

    method RecordReleased(id: string) returns (o: Outcome)
      requires Live() && execute && id in site.Ids() && Started(gates, id) && SawEligible(log, 0) && SawAbsent(log, 0, id)
      modifies this`gates, site
      ensures Onward(old(gates), old(log), o) && Inert(old(site.events), old(site.records), o)
      ensures o == Completed ==> Released(id) in gates
      ensures old(Smooth()) && id !in old(site.world).present ==>
        o == Completed && Smooth() && site.world == old(site.world)
    {
      if Released(id) !in gates { MayBeReleased(gates, id, site.Ids()); }
      if Smooth() && id !in site.world.present { ReleasedExtension(site.world, gates, id, site.Ids(), site.head); }
      o := Record(Released(id));
    }

    /** Everything re-checked against the recorded gates, then the release gate. */
    method PrepareRelease(id: string) returns (o: Outcome)
      requires Live() && execute && id in site.Ids() && Started(gates, id) && SawEligible(log, 0)
      modifies this, site
      ensures Onward(old(gates), old(log), o) && Inert(old(site.events), old(site.records), o)
      ensures o == Completed ==> ReleasePrepared(id) in gates && AncestryVerified(id) in vetted && Kept(old(log), log)
      ensures old(Smooth()) && id in old(site.world).present ==>
        o == Completed && Smooth() && site.world == old(site.world)
    {
      o := Eligibility();
      if o != Completed { return; }
      KeptLater(old(log), log);
      o := InspectPresent(id);
      if o != Completed { return; }
      o := RecordPrepared(id);
    }

    /** Prepared, then removed or released. */
    method Release(id: string, a: Action) returns (o: Outcome)
      requires Live() && execute && id in site.Ids() && Started(gates, id) && SawEligible(log, 0)
      requires a in {RemoveTree(id), ReleaseTool(id)}
      modifies this, site
      ensures Onward(old(gates), old(log), o) && Inert(old(site.events), old(site.records), o)
      ensures o == Completed ==> Kept(old(log), log)
      ensures old(Smooth()) && id in old(site.world).present ==>
        o == Completed && Smooth() && id !in site.world.present
    {
      o := PrepareRelease(id);
      if o != Completed { return; }
      o := Perform(a);
    }

    /** Removes a generated tree that is still there, and reads back that it is gone. */
    method RemoveGenerated(id: string) returns (o: Outcome, absent: bool)
      requires Live() && execute && id in site.Ids() && Started(gates, id) && SawEligible(log, 0)
      modifies this, site
      ensures Onward(old(gates), old(log), o) && Inert(old(site.events), old(site.records), o)
      ensures o == Completed ==> Kept(old(log), log) && (absent ==> SawAbsent(log, 0, id))
      ensures old(Smooth()) ==> o == Completed && absent && Smooth() && id !in site.world.present
    {
      o, absent := Inspect(id);
      if o != Completed { return; }
      if !absent {
        o := Release(id, RemoveTree(id));
        if o != Completed { return; }
      }
      o, absent := Inspect(id);
      if o != Completed { return; }
      if !absent { return Refused, false; }
      o, absent := Inspect(id);
    }

    /** Lets the owning tool release a resource, and reads back whether it is gone. */
    method ReleaseThroughTool(id: string) returns (o: Outcome, absent: bool)
      requires Live() && execute && id in site.Ids() && Started(gates, id) && SawEligible(log, 0)
      modifies this, site
      ensures Onward(old(gates), old(log), o) && Inert(old(site.events), old(site.records), o)
      ensures o == Completed ==> Kept(old(log), log) && (absent ==> SawAbsent(log, 0, id))
      ensures old(Smooth()) && id in old(site.world).present ==>
        o == Completed && absent && Smooth() && id !in site.world.present
    {
      absent := false;
      o := Release(id, ReleaseTool(id));
      if o != Completed { return; }
      o, absent := Inspect(id);
    }

    /** Brings one resource to observed absence. */
    method Clear(r: Resource) returns (o: Outcome)
      requires Live() && execute && r.id in site.Ids() && Started(gates, r.id) && SawEligible(log, 0)
      modifies this, site
      ensures Onward(old(gates), old(log), o) && Inert(old(site.events), old(site.records), o)
      ensures o == Completed ==> Kept(old(log), log) && SawAbsent(log, 0, r.id)
      ensures old(Smooth()) ==> o == Completed && Smooth() && r.id !in site.world.present
    {
      var absent;
      o, absent := Inspect(r.id);
      if o != Completed { return; }
      if r.generated {
        o, absent := RemoveGenerated(r.id);
        if o != Completed { return; }
        if !absent { return Refused; }
      } else if !absent {
        o, absent := ReleaseThroughTool(r.id);
        if o != Completed { return; }
        if !absent { return Refused; }
      }
    }

    /** One resource: inspected, released if it is still there, and recorded once it is seen to be absent. */
    method ReleaseOne(r: Resource) returns (o: Outcome)
      requires Live() && execute && r in site.resources && Started(gates, r.id) && SawEligible(log, 0)
      modifies this, site
      ensures Onward(old(gates), old(log), o) && Inert(old(site.events), old(site.records), o)
      ensures o == Completed ==> Released(r.id) in gates && Kept(old(log), log)
      ensures old(Smooth()) ==> o == Completed && Smooth()
    {
      assert r.id in site.Ids();
      o := Check();
      if o != Completed { return; }
      KeptLater(old(log), log);
      o := Clear(r);
      if o != Completed { return; }
      o := RecordReleased(r.id);
    }

    /** Demands distinct non-empty identities, and ancestry evidence for whatever was released before. */
    method CheckIdentities() returns (o: Outcome)
      requires Live()
      modifies this`log, site
      ensures Onward(old(gates), old(log), o) && Inert(old(site.events), old(site.records), o)
      ensures o == Completed ==> WellIdentified(site.resources) || |site.resources| > 100
      ensures old(Smooth()) ==> o == Completed && Smooth() && site.world == old(site.world)
    {
      o := Completed;
      for i := 0 to |site.resources|
        invariant o == Completed && Live() && old(log) <= log && Inert(old(site.events), old(site.records), o)
        invariant forall j :: 0 <= j < i ==> site.resources[j].id != ""
        invariant forall j, k :: 0 <= j < k < i ==> site.resources[j].id != site.resources[k].id
        invariant old(Smooth()) ==> Smooth() && site.world == old(site.world)
      {
        o := CheckIdentity(i);
        if o != Completed { return; }
      }
    }

    method CheckIdentity(i: nat) returns (o: Outcome)
      requires Live() && i < |site.resources|
      modifies this`log, site
      ensures Onward(old(gates), old(log), o) && Inert(old(site.events), old(site.records), o)
      ensures o == Completed ==> site.resources[i].id != ""
      ensures o == Completed ==> forall j :: 0 <= j < i ==> site.resources[j].id != site.resources[i].id
      ensures old(Smooth()) ==> o == Completed && Smooth() && site.world == old(site.world)
    {
      var id := site.resources[i].id;
      o := Check();
      if o != Completed { return; }
      if id == "" || exists j :: 0 <= j < i && site.resources[j].id == id { return Refused; }
      if Released(id) in gates {
        if execute { ReleasedHasAncestry(site.records, site.Ids(), id); }
        if AncestryVerified(id) !in gates { return Refused; }
      } else {
        o := Check();
      }
    }

    /** Notes the verified ancestry of every resource. */
    method RecordAncestry() returns (o: Outcome)
      requires Live() && execute && CleanupPrepared in gates && SawEligible(log, 0)
      modifies this`gates, site
      ensures Onward(old(gates), old(log), o) && Inert(old(site.events), old(site.records), o)
      ensures o == Completed ==> forall r :: r in site.resources ==> Started(gates, r.id)
      ensures old(Smooth()) ==> o == Completed && Smooth() && site.world == old(site.world)
    {
      o := Completed;
      for i := 0 to |site.resources|
        invariant o == Completed && Live() && old(gates) <= gates && CleanupPrepared in gates
        invariant forall j :: 0 <= j < i ==> AncestryVerified(site.resources[j].id) in gates
        invariant old(Smooth()) ==> Smooth() && site.world == old(site.world)
      {
        o := RecordOneAncestry(site.resources[i].id);
        if o != Completed { return; }
      }
    }

    method RecordOneAncestry(id: string) returns (o: Outcome)
      requires Live() && execute && CleanupPrepared in gates && SawEligible(log, 0) && id in site.Ids()
      modifies this`gates, site
      ensures Onward(old(gates), old(log), o) && Inert(old(site.events), old(site.records), o)
      ensures o == Completed ==> Started(gates, id) && forall g :: g in old(gates) ==> g in gates
      ensures old(Smooth()) ==> o == Completed && Smooth() && site.world == old(site.world)
    {
      if Smooth() { HarmlessExtension(site.world, gates, AncestryVerified(id), site.Ids(), site.head); }
      o := Record(AncestryVerified(id));
    }

    /** Releases in inventory order whatever is not recorded as released. */
    method ReleaseAll() returns (o: Outcome)
      requires Live() && execute && SawEligible(log, 0) && forall r :: r in site.resources ==> Started(gates, r.id)
      modifies this, site
      ensures Onward(old(gates), old(log), o) && Inert(old(site.events), old(site.records), o)
      ensures o == Completed ==> SawEligible(log, 0) && forall r :: r in site.resources ==> Released(r.id) in gates
      ensures old(Smooth()) ==> o == Completed && Smooth()
    {
      o := Completed;
      for i := 0 to |site.resources|
        invariant o == Completed && Live() && old(gates) <= gates && old(log) <= log && SawEligible(log, 0)
        invariant forall j :: 0 <= j < i ==> Released(site.resources[j].id) in gates
        invariant old(Smooth()) ==> Smooth()
      {
        var r := site.resources[i];
        if Released(r.id) !in gates {
          ghost var before := gates;
          StillRecorded(old(gates), gates);
          o := ReleaseOne(r);
          if o != Completed { return; }
          StillRecorded(before, gates);
        }
      }
    }

    /** The aggregate gate: every resource re-inspected and absent. */
    method CloseResources() returns (o: Outcome)
      requires Live() && execute && SawEligible(log, 0) && CleanupPrepared in gates
      requires forall r :: r in site.resources ==> Released(r.id) in gates
      modifies this`gates, this`log, site
      ensures Onward(old(gates), old(log), o) && Inert(old(site.events), old(site.records), o)
      ensures o == Completed ==> ResourcesReleased in gates && SawEligible(log, 0)
      ensures old(Smooth()) ==> o == Completed && Smooth()
    {
      o := VerifyAbsent(false);
      if o != Completed { return; }
      ghost var before := log;
      o := Check();
      if o != Completed { return; }
      LaterLog(old(log), log, 0, 0, site.head);
      LaterLog(before, log, |old(log)|, 0, site.head);
      AllAbsentSeen(log, site.resources);
      ResourcesMayClose(gates, site.resources);
      if Smooth() { ClosedExtension(site.world, gates, site.resources, site.head); }
      o := Record(ResourcesReleased);
    }

    /** Releases every inventoried resource; a preview only inspects. */
    method Resources() returns (o: Outcome)
      requires Live() && SawEligible(log, 0) && (execute ==> CleanupPrepared in gates)
      modifies this, site
      ensures Onward(old(gates), old(log), o) && Inert(old(site.events), old(site.records), o)
      ensures o == Completed && execute ==> ResourcesReleased in gates && SawEligible(log, 0)
      ensures old(Smooth()) ==> o == Completed && Smooth()
    {
      o := SurveyResources();
      if o != Completed { return; }
      StillRecorded(old(gates), gates);
      if ResourcesReleased in gates { return; }
      if !execute {
        o := Check();
        return;
      }
      ghost var before := gates;
      o := ReleaseAll();
      if o != Completed { return; }
      StillRecorded(before, gates);
      o := CloseResources();
    }

    method SurveyResources() returns (o: Outcome)
      requires Live() && SawEligible(log, 0) && (execute ==> CleanupPrepared in gates)
      modifies this`gates, this`log, site
      ensures Onward(old(gates), old(log), o) && Inert(old(site.events), old(site.records), o)
      ensures o == Completed ==> SawEligible(log, 0)
      ensures o == Completed && execute ==> forall r :: r in site.resources ==> Started(gates, r.id)
      ensures old(Smooth()) ==> o == Completed && Smooth()
    {
      o := CheckIdentities();
      if o != Completed { return; }
      KeptLater(old(log), log);
      ghost var before := log;
      o := Check();
      if o != Completed { return; }
      KeptLater(before, log);
      if execute {
        o := RecordAncestry();
        if o != Completed { return; }
      }
      before := log;
      o := VerifyAbsent(true);
      if o != Completed { return; }
      KeptLater(before, log);
    }

    // ---------- Refs, worktree and title ----------

    /** Records a gate that claims no absence. */
    method RecordHarmless(g: Gate) returns (o: Outcome)
      requires Live() && execute && Harmless(g)
      requires g !in gates ==> MayFollow(gates, g, site.Ids()) && Attested(g, log, vetted, site.Ids(), site.head)
      modifies this`gates, site
      ensures Onward(old(gates), old(log), o) && Inert(old(site.events), old(site.records), o)
      ensures o == Completed ==> g in gates && forall p :: p in old(gates) ==> p in gates
      ensures old(Smooth()) ==> o == Completed && Smooth() && site.world == old(site.world)
    {
      if Smooth() { HarmlessExtension(site.world, gates, g, site.Ids(), site.head); }
      o := Record(g);
      if o == Completed { StillRecorded(old(gates), gates); }
    }

    /** The prepared gate, then the step itself. */
    method Withdraw(a: Action) returns (o: Outcome)
      requires Live() && execute && a in {DeleteRemote, RemoveWorktree, DeleteLocal}
      requires SawEligible(log, 0) && Reached(gates, PreviousStage(a)) && PreviousStage(a) in vetted
      modifies this`gates, site
      ensures Onward(old(gates), old(log), o) && Inert(old(site.events), old(site.records), o)
      ensures o == Completed ==> Reached(gates, PreviousStage(a))
      ensures old(Smooth()) && Held(a, old(site.world), site.head) ==>
        o == Completed && Smooth() && site.world == Effect(a, old(site.world))
    {
      StageMayFollow(gates, PreviousStage(a), PreparedGate(a), site.Ids());
      o := RecordHarmless(PreparedGate(a));
      if o != Completed { return; }
      o := Perform(a);
    }

    /** Deletes the remote ref if it is there and still at the recorded head. */
    method DropRemote() returns (o: Outcome)
      requires Live() && execute && SawEligible(log, 0) && Reached(gates, ResourcesReleased) && ResourcesReleased in vetted
      modifies this`gates, this`log, site
      ensures Onward(old(gates), old(log), o) && Inert(old(site.events), old(site.records), o)
      ensures o == Completed ==> Kept(old(log), log) && Reached(gates, ResourcesReleased)
      ensures old(Smooth()) ==> o == Completed && Smooth() && site.world.remote == None
    {
      o := Check();
      if o != Completed { return; }
      o := Observe();
      if o != Completed { return; }
      KeptLater(old(log), log);
      if site.world.remote != None {
        ghost var before := log;
        o := Check();
        if o != Completed { return; }
        KeptLater(before, log);
        o := Withdraw(DeleteRemote);
      }
    }

    method ConfirmRemoteAbsent() returns (o: Outcome)
      requires Live() && execute && SawEligible(log, 0) && Reached(gates, ResourcesReleased) && ResourcesReleased in vetted
      modifies this`gates, this`log, site
      ensures Onward(old(gates), old(log), o) && Inert(old(site.events), old(site.records), o)
      ensures o == Completed ==> Reached(gates, RemoteAbsent)
      ensures old(Smooth()) && old(site.world).remote == None ==> o == Completed && Smooth()
    {
      o := Observe();
      if o != Completed { return; }
      if site.world.remote != None { return Refused; }
      assert log[|old(log)|] == site.world;
      KeptLater(old(log), log);
      StageMayFollow(gates, ResourcesReleased, RemoteAbsent, site.Ids());
      if Smooth() { AbsenceExtension(site.world, gates, RemoteAbsent, site.Ids(), site.head); }
      o := Record(RemoteAbsent);
      if o == Completed { StillRecorded(old(gates), gates); }
    }

    /** The remote ref: vetted, deleted if present, seen absent, recorded. */
    method RemoteStage() returns (o: Outcome)
      requires Live() && execute && Reached(gates, ResourcesReleased)
      modifies this, site
      ensures Onward(old(gates), old(log), o) && Inert(old(site.events), old(site.records), o)
      ensures o == Completed ==> Reached(gates, RemoteAbsent)
      ensures old(Smooth()) ==> o == Completed && Smooth()
    {
      o := Eligibility();
      if o != Completed { return; }
      LaterPassed(log, |old(log)|, 0, gates, site.Ids(), site.head);
      o := DropRemote();
      if o != Completed { return; }
      o := ConfirmRemoteAbsent();
    }

    /** Removes the worktree if it is there. */
    method DropWorktree() returns (o: Outcome)
      requires Live() && execute && SawEligible(log, 0) && Reached(gates, RemoteAbsent) && RemoteAbsent in vetted
      modifies this`gates, this`log, site
      ensures Onward(old(gates), old(log), o) && Inert(old(site.events), old(site.records), o)
      ensures o == Completed ==> Kept(old(log), log) && Reached(gates, RemoteAbsent)
      ensures old(Smooth()) ==> o == Completed && Smooth() && !site.world.worktree
    {
      o := Observe();
      if o != Completed { return; }
      KeptLater(old(log), log);
      if site.world.worktree {
        ghost var before := log;
        o := Check();
        if o != Completed { return; }
        KeptLater(before, log);
        o := Withdraw(RemoveWorktree);
      }
    }

    /** Reads back that the worktree is gone and that the task is still eligible. */
    method ConfirmWorktreeGone() returns (o: Outcome)
      requires Live() && execute && SawEligible(log, 0)
      modifies this`log, site
      ensures Onward(old(gates), old(log), o) && Inert(old(site.events), old(site.records), o)
      ensures o == Completed ==> SawEligible(log, 0) && SawWorktreeGone(log, 0)
      ensures old(Smooth()) && !old(site.world).worktree ==> o == Completed && Smooth() && site.world == old(site.world)
    {
      o := Observe();
      if o != Completed { return; }
      if site.world.worktree { return Refused; }
      assert log[|old(log)|] == site.world;
      ghost var before := log;
      o := Check();
      if o != Completed { return; }
      LaterLog(before, log, 0, 0, site.head);
      KeptLater(old(log), log);
    }

    /** Deletes the local ref if it is there and still at the recorded head. */
    method DropLocal() returns (o: Outcome)
      requires Live() && execute && SawEligible(log, 0) && Reached(gates, RemoteAbsent) && RemoteAbsent in vetted
      modifies this`gates, this`log, site
      ensures Onward(old(gates), old(log), o) && Inert(old(site.events), old(site.records), o)
      ensures o == Completed ==> Kept(old(log), log) && Reached(gates, RemoteAbsent)
      ensures old(Smooth()) && !old(site.world).worktree ==>
        o == Completed && Smooth() && site.world.local == None && !site.world.worktree
    {
      o := Observe();
      if o != Completed { return; }
      KeptLater(old(log), log);
      if !RefAllowed(site.world.local, site.head, false) { return Refused; }
      if site.world.local != None {
        o := Withdraw(DeleteLocal);
      }
    }

    method ConfirmLocalAbsent() returns (o: Outcome)
      requires Live() && execute && SawEligible(log, 0) && SawWorktreeGone(log, 0)
      requires Reached(gates, RemoteAbsent) && RemoteAbsent in vetted
      modifies this`gates, this`log, site
      ensures Onward(old(gates), old(log), o) && Inert(old(site.events), old(site.records), o)
      ensures o == Completed ==> Reached(gates, LocalAbsent) && SawEligible(log, 0) && SawWorktreeGone(log, 0)
      ensures old(Smooth()) && old(site.world).local == None ==>
        o == Completed && Smooth() && site.world == old(site.world)
    {
      o := Observe();
      if o != Completed { return; }
      if site.world.local != None { return Refused; }
      assert log[|old(log)|] == site.world;
      LaterLog(old(log), log, 0, 0, site.head);
      StageMayFollow(gates, RemoteAbsent, LocalAbsent, site.Ids());
      if Smooth() { AbsenceExtension(site.world, gates, LocalAbsent, site.Ids(), site.head); }
      o := Record(LocalAbsent);
      if o == Completed { StillRecorded(old(gates), gates); }
    }

    method RecordWorktreeRemoved() returns (o: Outcome)
      requires Live() && execute && SawEligible(log, 0) && SawWorktreeGone(log, 0) && Reached(gates, LocalAbsent)
      modifies this`gates, site
      ensures Onward(old(gates), old(log), o) && Inert(old(site.events), old(site.records), o)
      ensures o == Completed ==> Reached(gates, WorktreeRemoved)
      ensures old(Smooth()) && !old(site.world).worktree ==> o == Completed && Smooth()
    {
      o := Record(WorktreeRemoved);
      if o == Completed { StillRecorded(old(gates), gates); }
    }

    /** The worktree and the local ref: vetted, removed if present, seen absent, recorded. */
    method WorktreeStage() returns (o: Outcome)
      requires Live() && execute && Reached(gates, RemoteAbsent)
      modifies this, site
      ensures Onward(old(gates), old(log), o) && Inert(old(site.events), old(site.records), o)
      ensures o == Completed ==> Reached(gates, WorktreeRemoved)
      ensures old(Smooth()) ==> o == Completed && Smooth()
    {
      o := Eligibility();
      if o != Completed { return; }
      LaterPassed(log, |old(log)|, 0, gates, site.Ids(), site.head);
      o := DropWorktree();
      if o != Completed { return; }
      o := ConfirmWorktreeGone();
      if o != Completed { return; }
      o := LocalStage();
    }

    method LocalStage() returns (o: Outcome)
      requires Live() && execute && SawEligible(log, 0) && SawWorktreeGone(log, 0)
      requires Reached(gates, RemoteAbsent) && RemoteAbsent in vetted
      modifies this`gates, this`log, site
      ensures Onward(old(gates), old(log), o) && Inert(old(site.events), old(site.records), o)
      ensures o == Completed ==> Reached(gates, WorktreeRemoved)
      ensures old(Smooth()) && !old(site.world).worktree ==> o == Completed && Smooth()
    {
      o := DropLocal();
      if o != Completed { return; }
      LaterLog(old(log), log, 0, 0, site.head);
      o := ConfirmLocalAbsent();
      if o != Completed { return; }
      o := RecordWorktreeRemoved();
    }

    /** The title: set through the controller or explicitly unavailable, read back, then recorded as done. */
    method TitleStage() returns (o: Outcome)
      requires Live() && execute && Reached(gates, WorktreeRemoved)
      modifies this, site
      ensures Onward(old(gates), old(log), o) && Inert(old(site.events), old(site.records), o)
      ensures o == Completed ==> TitleDone in gates
      ensures old(Smooth()) ==> o == Completed && Smooth()
    {
      o := RecordTitle();
      if o != Completed { return; }
      ghost var before := log;
      o := Eligibility();
      if o != Completed { return; }
      LaterPassed(log, |before|, 0, gates, site.Ids(), site.head);
      o := RecordHarmless(TitleDone);
    }

    method RecordTitle() returns (o: Outcome)
      requires Live() && execute && Reached(gates, WorktreeRemoved)
      modifies this, site
      ensures Onward(old(gates), old(log), o) && Inert(old(site.events), old(site.records), o)
      ensures o == Completed ==> Reached(gates, WorktreeRemoved) && (TitleUnavailable in gates || TitleVerified in gates)
      ensures old(Smooth()) ==> o == Completed && Smooth()
    {
      o := Eligibility();
      if o != Completed { return; }
      LaterPassed(log, |old(log)|, 0, gates, site.Ids(), site.head);
      ghost var before := log;
      o := Observe();
      if o != Completed { return; }
      KeptLater(before, log);
      o := RecordHarmless(if site.world.titles then TitleVerified else TitleUnavailable);
    }

    // ---------- The run ----------

    /** All stages in order, each skipping what is already recorded or already absent. */
    method Reconcile() returns (o: Outcome)
      requires Live()
      modifies this, site
      ensures Onward(old(gates), old(log), o) && Inert(old(site.events), old(site.records), o)
      ensures o == Completed && execute ==> TitleDone in gates
      ensures old(Smooth()) ==> o == Completed && Smooth()
    {
      o := Eligibility();
      if o != Completed { return; }
      LaterPassed(log, |old(log)|, 0, gates, site.Ids(), site.head);
      if execute {
        o := RecordHarmless(CleanupPrepared);
        if o != Completed { return; }
      }
      ghost var before := gates;
      o := Resources();
      if o != Completed { return; }
      if !execute { return; }
      StillRecorded(before, gates);
      o := TearDown();
    }

    method TearDown() returns (o: Outcome)
      requires Live() && execute && Reached(gates, ResourcesReleased)
      modifies this, site
      ensures Onward(old(gates), old(log), o) && Inert(old(site.events), old(site.records), o)
      ensures o == Completed ==> TitleDone in gates
      ensures old(Smooth()) ==> o == Completed && Smooth()
    {
      o := RemoteStage();
      if o != Completed { return; }
      o := WorktreeStage();
      if o != Completed { return; }
      o := TitleStage();
    }

    /** One process: restores the journal (again under the lock when executing), then reconciles. */
    method Run() returns (o: Outcome)
      requires site.Valid()
      modifies this, site
      ensures site.Valid()
      ensures o == Completed && execute ==>
        TitleDone in gates && gates == Newest(site.records) && AllDurable(site.records)
      ensures !execute ==> site.events == old(site.events) && NoNewRecord(old(site.records), site.records)
      ensures old(site.pending) ==> o == Refused && site.records == old(site.records) && site.events == old(site.events)
      ensures execute && old(site.answers) == [] && !old(site.pending) && WellIdentified(site.resources)
              && Consistent(old(site.world), Newest(old(site.records)), site.Ids(), site.head) ==>
        o == Completed && Finished(site.world, site.Ids())
    {
      gates, log, vetted := [], [], [];
      if |site.resources| > 100 { return Refused; }
      o := RestoreGates();
      if o != Completed { return; }
      if execute {
        o := RestoreGates();
        if o != Completed { return; }
      }
      o := Reconcile();
      if o == Completed && execute && Smooth() { FinishedAtEnd(site.world, site.records, site.Ids(), site.head); }
    }
  }

  /** A process invocation: whether power was lost before it, its mode, and what its calls will meet. */
  datatype Session = Session(outage: Outage, execute: bool, answers: seq<Answer>)

  datatype Outage = NoOutage | Outage(keepsRecord: bool, leavesPending: bool)

  /** Any number of runs, one at a time as the task lock enforces, interrupted anywhere. */
  method Campaign(site: Site, sessions: seq<Session>)
    requires site.Valid()
    modifies site
    ensures site.Valid()
    ensures (forall s :: s in sessions ==> !s.execute) ==>
      site.events == old(site.events) && NoNewRecord(old(site.records), site.records)
  {
    for i := 0 to |sessions|
      invariant site.Valid()
      invariant (forall s :: s in sessions ==> !s.execute) ==>
        site.events == old(site.events) && NoNewRecord(old(site.records), site.records)
    {
      var session := sessions[i];
      if session.outage.Outage? { site.LosePower(session.outage.keepsRecord, session.outage.leavesPending); }
      site.answers := session.answers;
      var run := new Cleanup(site, session.execute);
      var o := run.Run();
    }
  }
}
