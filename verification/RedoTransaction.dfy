/** The journaled multi-file refresh of the PowerCLI lock and its consumers.

  A rename is visible at once but durable only after its directory has been synchronised, so each name
  carries its visible entry and the set of entries a power loss may leave behind. Every system call
  consults a script of fates: it works, raises, or never returns because power is lost.
*/
module RedoTransaction {

  type Version = map<string, string>

  datatype Images = Images(before: string, after: string)

  datatype Entry = Absent | Directory | Text(text: string) | Journal(files: map<string, Images>) | Torn

  /** One name: the entry programs see, whether its bytes were flushed before it was placed, and every
      entry that may survive a power loss. */
  datatype Slot = Slot(live: Entry, flushed: bool, possible: set<Entry>)

  datatype State = State(directory: Slot, journal: Slot, tracked: map<string, Slot>)

  datatype Survivors = Survivors(directory: Entry, journal: Entry, tracked: map<string, Entry>)

  datatype Fate = Works | Raises | LosesPower(survivors: Survivors)

  predicate StartsWithLoss(fates: seq<Fate>) { fates != [] && fates[0].LosesPower? }

  /** Every call works except the last one of the script. */
  ghost predicate LateFailure(fates: seq<Fate>) {
    fates != [] && fates[|fates| - 1].Raises? && forall i :: 0 <= i < |fates| - 1 ==> fates[i].Works?
  }

  /** Under such a script, `calls` calls all work and leave the rest of it. */
  ghost predicate Spends(before: seq<Fate>, after: seq<Fate>, o: Outcome, calls: nat) {
    LateFailure(before) && |before| > calls ==> o == Completed && LateFailure(after) && |after| == |before| - calls
  }

  /** Creating the journal directory takes four calls, repairing it one. */
  ghost function DirectoryCalls(s: State): nat { if s.directory.live == Directory then 1 else 4 }

  /** Publishing the journal, then recovering. */
  ghost function PublishCalls(s: State, n: nat): nat { DirectoryCalls(s) + 4 + RecoveryCalls(n) }

  /** Recommitting the journal, rolling `n` files forward and removing the journal. */
  ghost function RecoveryCalls(n: nat): nat { 5 + 4 * n + 2 }

  datatype Action =
    | PlaceDirectory | PlaceJournal | PlaceTracked(path: string) | RemoveJournal | Synchronise | PowerLoss

  /** The update in progress, or the last one: the version it leaves, the version it reaches, and the finished
      journals of earlier updates that a power loss may still bring back. */
  datatype Move = Move(from: Version, to: Version, stale: set<map<string, Images>>)

  /** A step that changed the disk, with the states around it and the update it belongs to. */
  datatype Event = Event(action: Action, before: State, after: State, move: Move)

  datatype Outcome = Completed | Unchanged | Declined | Failed | Lost

  // ---------- Effects of single calls ----------

  function Certain(e: Entry): Slot { Slot(e, true, {e}) }

  function Place(slot: Slot, e: Entry, flushed: bool): Slot {
    Slot(e, flushed, slot.possible + {e} + (if flushed then {} else {Torn}))
  }

  function Settle(slot: Slot): Slot {
    if slot.flushed then Certain(slot.live) else Slot(slot.live, false, {slot.live, Torn})
  }

  function Survive(slot: Slot, e: Entry): Slot {
    if e in slot.possible then Certain(e) else Certain(slot.live)
  }

  /** The two kinds of file that are replaced. */
  datatype Target = JournalFile | TrackedFile(path: string)

  predicate Has(s: State, target: Target) { target.TrackedFile? ==> target.path in s.tracked }

  function Placed(s: State, target: Target, e: Entry, flushed: bool): State
    requires Has(s, target)
  {
    match target
    case JournalFile => s.(journal := Place(s.journal, e, flushed))
    case TrackedFile(p) => s.(tracked := s.tracked[p := Place(s.tracked[p], e, flushed)])
  }

  /** The state after the directory of `target` has been synchronised. */
  function Settled(s: State, parent: string -> string, target: Target): State {
    match target
    case JournalFile => s.(journal := Settle(s.journal))
    case TrackedFile(path) =>
      s.(tracked := map p | p in s.tracked ::
           if parent(p) == parent(path) then Settle(s.tracked[p]) else s.tracked[p])
  }

  /** What a power loss leaves: one surviving entry per name, and nothing inside a lost directory. */
  function AfterLoss(s: State, k: Survivors): State {
    var directory := Survive(s.directory, k.directory);
    State(directory,
          if directory.live == Directory then Survive(s.journal, k.journal) else Certain(Absent),
          map p | p in s.tracked :: Survive(s.tracked[p], if p in k.tracked then k.tracked[p] else Torn))
  }

  // ---------- The protection invariant ----------

  function Befores(t: map<string, Images>): Version { map p | p in t :: t[p].before }
  function Afters(t: map<string, Images>): Version { map p | p in t :: t[p].after }

  /** Every tracked file durably holds `v`. */
  ghost predicate DurablyAt(s: State, v: Version) {
    s.tracked.Keys == v.Keys && forall p :: p in v ==> s.tracked[p] == Certain(Text(v[p]))
  }

  /** The journal of the update. */
  ghost predicate Between(t: map<string, Images>, m: Move) { Befores(t) == m.from && Afters(t) == m.to }

  /** All files at one end of the update; a journal can only survive in a durable directory, and none that may
      survive leads anywhere else. */
  ghost predicate Quiet(s: State, v: Version, m: Move) {
    && (v == m.from || v == m.to) && DurablyAt(s, v)
    && s.directory.flushed && s.directory.live in s.directory.possible && s.directory.possible <= {Absent, Directory}
    && s.journal.flushed && s.journal.live in s.journal.possible
    && (s.directory == Certain(Directory) || s.journal.possible <= {Absent})
    && forall e :: e in s.journal.possible ==> Harmless(e, v, s.journal.live, m)
  }

  /** At the start only a stale journal, or the visible journal of the update; at the end only the latter. */
  ghost predicate Harmless(e: Entry, v: Version, live: Entry, m: Move) {
    e == Absent || (e.Journal? && (Repeats(e.files, v, m) || (Between(e.files, m) && (v == m.to || e == live))))
  }

  /** A finished journal of an earlier update: rolling it forward again changes nothing. */
  ghost predicate Repeats(t: map<string, Images>, v: Version, m: Move) {
    v == m.from && t in m.stale && Afters(t) == v
  }

  /** A durable journal names both images of every tracked file, and each file holds one of them. */
  ghost predicate Armed(s: State, t: map<string, Images>) {
    && s.directory == Certain(Directory) && s.journal == Certain(Journal(t))
    && s.tracked.Keys == t.Keys
    && forall p :: p in t ==> OneOf(s.tracked[p], t[p])
  }

  ghost predicate Protected(s: State, t: map<string, Images>, m: Move) { Armed(s, t) && Between(t, m) }

  ghost predicate OneOf(slot: Slot, i: Images) {
    slot.flushed && slot.live in slot.possible && slot.possible <= {Text(i.before), Text(i.after)}
  }

  /** The texts visible in the tracked files. */
  ghost function Contents(s: State): Version {
    map p | p in s.tracked && s.tracked[p].live.Text? :: s.tracked[p].live.text
  }

  /** All before, all after, or a mixture of the two that a durable journal can complete. */
  ghost predicate Safe(s: State, m: Move) {
    || Quiet(s, Contents(s), m)
    || (s.journal.live.Journal? && Protected(s, s.journal.live.files, m))
  }

  lemma QuietSurvives(s: State, k: Survivors, v: Version, m: Move)
    requires Quiet(s, v, m)
    ensures Quiet(AfterLoss(s, k), v, m)
  {
    var r := AfterLoss(s, k);
    forall e | e in r.journal.possible ensures Harmless(e, v, r.journal.live, m) {
      assert e == r.journal.live;
      assert e == Absent || Harmless(e, v, s.journal.live, m);
    }
  }

  lemma ArmedSurvives(s: State, k: Survivors, t: map<string, Images>)
    requires Armed(s, t)
    ensures Armed(AfterLoss(s, k), t)
  {
    var r := AfterLoss(s, k);
    forall p | p in t
      ensures OneOf(r.tracked[p], t[p])
    {
      assert OneOf(s.tracked[p], t[p]);
    }
  }

  /** No power loss, whatever it keeps or drops, breaks the protection. */
  lemma SafeSurvives(s: State, k: Survivors, m: Move)
    requires Safe(s, m)
    ensures Safe(AfterLoss(s, k), m)
  {
    if Quiet(s, Contents(s), m) {
      QuietSurvives(s, k, Contents(s), m);
      QuietContents(AfterLoss(s, k), Contents(s), m);
    } else {
      ArmedSurvives(s, k, s.journal.live.files);
    }
  }

  lemma QuietContents(s: State, v: Version, m: Move)
    requires Quiet(s, v, m)
    ensures Contents(s) == v
  {
  }

  lemma SettleCertain(s: State, parent: string -> string, path: string, v: Version)
    requires DurablyAt(s, v)
    ensures Settled(s, parent, TrackedFile(path)) == s
  {
    var r := Settled(s, parent, TrackedFile(path));
    forall p | p in s.tracked ensures r.tracked[p] == s.tracked[p] { assert p in v; }
    assert r.tracked == s.tracked;
  }

  lemma SettledQuiet(s: State, parent: string -> string, target: Target, v: Version, m: Move)
    requires Quiet(s, v, m)
    ensures Quiet(Settled(s, parent, target), v, m)
  {
    match target
    case TrackedFile(path) => SettleCertain(s, parent, path, v);
    case JournalFile => assert Harmless(s.journal.live, v, s.journal.live, m);
  }

  lemma SettledArmed(s: State, parent: string -> string, target: Target, t: map<string, Images>)
    requires Armed(s, t)
    ensures Armed(Settled(s, parent, target), t)
  {
    var r := Settled(s, parent, target);
    forall p | p in t ensures OneOf(r.tracked[p], t[p]) { assert OneOf(s.tracked[p], t[p]); }
  }

  /** A synchronised directory only narrows what may survive. */
  lemma SettledSafe(s: State, parent: string -> string, target: Target, m: Move)
    requires Safe(s, m)
    ensures Safe(Settled(s, parent, target), m)
  {
    if Quiet(s, Contents(s), m) {
      SettledQuiet(s, parent, target, Contents(s), m);
      QuietContents(Settled(s, parent, target), Contents(s), m);
    } else {
      SettledArmed(s, parent, target, s.journal.live.files);
    }
  }

  /** Under a durable journal the update is rolling, or an earlier one is being repeated in place. */
  lemma ArmedAndSafe(s: State, t: map<string, Images>, m: Move)
    requires Armed(s, t) && Safe(s, m)
    ensures Protected(s, t, m) || (Quiet(s, m.from, m) && Repeats(t, m.from, m))
  {
    if Quiet(s, Contents(s), m) {
      assert Harmless(Journal(t), Contents(s), s.journal.live, m);
    }
  }

  // ---------- Ordering of writes ----------

  /** A tracked file is only ever replaced by its after image, under a durable journal in a durable
      directory; the journal is only removed once every after image is durable; nothing else touches
      a tracked file. */
  ghost predicate Disciplined(e: Event) {
    match e.action
    case PowerLoss => true
    case PlaceTracked(p) =>
      && e.before.directory == Certain(Directory)
      && e.before.journal.live.Journal? && e.before.journal == Certain(e.before.journal.live)
      && p in e.before.journal.live.files && Has(e.before, TrackedFile(p))
      && e.after == Placed(e.before, TrackedFile(p), Text(e.before.journal.live.files[p].after), true)
    case RemoveJournal =>
      && e.before.journal.live.Journal? && DurablyAt(e.before, Afters(e.before.journal.live.files))
      && e.after.tracked == e.before.tracked
    case _ =>
      && e.after.tracked.Keys == e.before.tracked.Keys
      && forall p :: p in e.before.tracked ==> e.after.tracked[p].live == e.before.tracked[p].live
  }

  ghost predicate GoodEvent(e: Event) { Disciplined(e) && Safe(e.after, e.move) }

  lemma SettledGood(s: State, parent: string -> string, target: Target, m: Move)
    requires Safe(s, m)
    ensures GoodEvent(Event(Synchronise, s, Settled(s, parent, target), m))
  {
    SettledSafe(s, parent, target, m);
    SettledVisible(s, parent, target);
  }

  /** Synchronising changes nothing that is visible. */
  lemma SettledVisible(s: State, parent: string -> string, target: Target)
    ensures Settled(s, parent, target).tracked.Keys == s.tracked.Keys
    ensures forall p :: p in s.tracked ==> Settled(s, parent, target).tracked[p].live == s.tracked[p].live
  {
  }

  ghost function Replacement(s: State, target: Target, e: Entry, flushed: bool, m: Move): Event
    requires Has(s, target)
  {
    Event(if target.JournalFile? then PlaceJournal else PlaceTracked(target.path), s, Placed(s, target, e, flushed), m)
  }

  /** Directory entries hold no bytes of their own, so synchronising the root makes them certain. */
  function RootSettled(s: State): State { s.(directory := Certain(s.directory.live)) }

  function DirectoryPlaced(s: State): State { s.(directory := Place(s.directory, Directory, true)) }

  function JournalRemoved(s: State): State { s.(journal := Place(s.journal, Absent, true)) }

  lemma DirectoryGood(s: State, m: Move)
    requires Safe(s, m)
    ensures GoodEvent(Event(PlaceDirectory, s, DirectoryPlaced(s), m))
    ensures GoodEvent(Event(Synchronise, s, RootSettled(s), m))
  {
    assert Contents(DirectoryPlaced(s)) == Contents(s);
    assert Contents(RootSettled(s)) == Contents(s);
  }

  /** The journal of the update, or the one already visible, may be placed, and protects once durable. */
  lemma JournalGood(s: State, parent: string -> string, t: map<string, Images>, m: Move)
    requires Quiet(s, Contents(s), m) && s.directory == Certain(Directory)
    requires s.journal.live == Journal(t) || (s.journal.live == Absent && Contents(s) == m.from && Between(t, m))
    ensures GoodEvent(Replacement(s, JournalFile, Journal(t), true, m))
    ensures Armed(Settled(Placed(s, JournalFile, Journal(t), true), parent, JournalFile), t)
  {
    var placed := Placed(s, JournalFile, Journal(t), true);
    assert Contents(placed) == Contents(s);
    if s.journal.live == Journal(t) { assert Harmless(Journal(t), Contents(s), s.journal.live, m); }
    assert Befores(t).Keys == t.Keys && Afters(t).Keys == t.Keys;
    forall p | p in t ensures OneOf(s.tracked[p], t[p]) { assert p in Contents(s); }
    forall e | e in placed.journal.possible ensures Harmless(e, Contents(s), placed.journal.live, m) {
      if e != Journal(t) { assert Harmless(e, Contents(s), s.journal.live, m); }
    }
  }

  /** Recommitting the journal that already protects changes nothing. */
  lemma JournalAgain(s: State, parent: string -> string, t: map<string, Images>, m: Move)
    requires Protected(s, t, m)
    ensures GoodEvent(Replacement(s, JournalFile, Journal(t), true, m))
    ensures Armed(Settled(Placed(s, JournalFile, Journal(t), true), parent, JournalFile), t)
  {
    assert Placed(s, JournalFile, Journal(t), true) == s;
    assert Settled(s, parent, JournalFile) == s;
  }

  /** Rolling one file forward under the journal of the update. */
  lemma RollForwardProtected(s: State, parent: string -> string, t: map<string, Images>, path: string, m: Move)
    requires Protected(s, t, m) && path in t
    ensures Protected(Placed(s, TrackedFile(path), Text(t[path].after), true), t, m)
    ensures Protected(Settled(Placed(s, TrackedFile(path), Text(t[path].after), true), parent, TrackedFile(path)), t, m)
  {
    var placed := Placed(s, TrackedFile(path), Text(t[path].after), true);
    var settled := Settled(placed, parent, TrackedFile(path));
    forall p | p in t
      ensures OneOf(placed.tracked[p], t[p]) && OneOf(settled.tracked[p], t[p])
    {
      assert OneOf(s.tracked[p], t[p]);
    }
  }

  lemma PlaceSame(e: Entry)
    ensures Place(Certain(e), e, true) == Certain(e)
  {
    assert {e} + {e} + {} == {e};
  }

  /** Repeating a finished journal leaves the disk as it is. */
  lemma RollForwardRepeats(s: State, parent: string -> string, t: map<string, Images>, path: string)
    requires DurablyAt(s, Afters(t)) && path in t
    ensures Placed(s, TrackedFile(path), Text(t[path].after), true) == s
    ensures Settled(s, parent, TrackedFile(path)) == s
  {
    assert Afters(t)[path] == t[path].after;
    PlaceSame(Text(t[path].after));
    assert s.tracked[path := s.tracked[path]] == s.tracked;
    SettleCertain(s, parent, path, Afters(t));
  }

  /** Rolling one file forward keeps the disk safe and the journal armed. */
  lemma RollForwardGood(s: State, parent: string -> string, t: map<string, Images>, path: string, m: Move)
    requires Safe(s, m) && Armed(s, t) && path in t
    ensures GoodEvent(Replacement(s, TrackedFile(path), Text(t[path].after), true, m))
    ensures Armed(Settled(Placed(s, TrackedFile(path), Text(t[path].after), true), parent, TrackedFile(path)), t)
  {
    ArmedAndSafe(s, t, m);
    if Protected(s, t, m) {
      RollForwardProtected(s, parent, t, path, m);
    } else {
      RollForwardRepeats(s, parent, t, path);
    }
  }

  ghost predicate AtAfter(s: State, t: map<string, Images>, path: string) {
    path in t && path in s.tracked && s.tracked[path] == Certain(Text(t[path].after))
  }

  lemma AllAtAfter(s: State, t: map<string, Images>)
    requires s.tracked.Keys == t.Keys && forall p :: p in t ==> AtAfter(s, t, p)
    ensures DurablyAt(s, Afters(t))
  {
    assert Afters(t).Keys == t.Keys;
  }

  /** Once every after image is durable the journal may go. */
  lemma RemovalGood(s: State, t: map<string, Images>, m: Move)
    requires Safe(s, m) && Armed(s, t) && DurablyAt(s, Afters(t))
    ensures GoodEvent(Event(RemoveJournal, s, JournalRemoved(s), m))
    ensures Quiet(JournalRemoved(s), Afters(t), m)
  {
    ArmedAndSafe(s, t, m);
    QuietContents(JournalRemoved(s), Afters(t), m);
  }

  /** A journal is visible and recovery would have to act on it. */
  predicate Pending(s: State) { s.directory.live == Directory && s.journal.live != Absent }

  /** The journal is complete and every tracked file still holds one of its two images. */
  predicate Unedited(s: State) {
    && s.journal.live.Journal?
    && s.journal.live.files.Keys == s.tracked.Keys
    && forall p :: p in s.tracked ==>
         s.tracked[p].live in {Text(s.journal.live.files[p].before), Text(s.journal.live.files[p].after)}
  }

  /** Without outside edits, a visible journal is always one that recovery accepts. */
  lemma SafePendingIsUnedited(s: State, m: Move)
    requires Safe(s, m) && Pending(s)
    ensures Unedited(s)
  {
    var t := s.journal.live.files;
    if Quiet(s, Contents(s), m) {
      var v := Contents(s);
      assert Harmless(s.journal.live, v, s.journal.live, m);
      assert Befores(t).Keys == t.Keys && Afters(t).Keys == t.Keys;
      forall p | p in s.tracked
        ensures s.tracked[p].live in {Text(t[p].before), Text(t[p].after)}
      {
        assert p in v && s.tracked[p] == Certain(Text(v[p]));
      }
    } else {
      assert forall p :: p in t ==> OneOf(s.tracked[p], t[p]);
    }
  }

  // ---------- Where recovery leads ----------

  /** The visible journal leads to `v`. */
  predicate LeadsTo(s: State, v: Version) { s.journal.live.Journal? && Afters(s.journal.live.files) == v }

  /** The journals that a power loss may bring back. */
  function Returning(s: State): set<map<string, Images>> {
    set e | e in s.journal.possible && e.Journal? :: e.files
  }

  /** A visible journal is that of the update, or a stale one, and then no file has moved. */
  lemma PendingLeads(s: State, m: Move)
    requires Safe(s, m) && Pending(s)
    ensures s.journal.live.Journal?
    ensures LeadsTo(s, m.to) || (s.journal.live.files in m.stale && LeadsTo(s, m.from) && DurablyAt(s, m.from))
  {
    if Quiet(s, Contents(s), m) {
      assert Harmless(s.journal.live, Contents(s), s.journal.live, m);
    }
  }

  /** With no journal visible, all files are at one end of the update. */
  lemma NothingPending(s: State, m: Move)
    requires Safe(s, m) && !Pending(s)
    ensures s.journal.live == Absent && (DurablyAt(s, m.from) || DurablyAt(s, m.to))
  {
    assert Quiet(s, Contents(s), m);
    assert s.directory.live in {Absent, Directory};
  }

  /** The next update starts where the last one ended; only journals that lead there can return. */
  lemma NextMove(s: State, m: Move, to: Version)
    requires Safe(s, m) && !Pending(s)
    ensures Safe(s, Move(Contents(s), to, Returning(s)))
  {
    NothingPending(s, m);
    var next := Move(Contents(s), to, Returning(s));
    forall e | e in s.journal.possible ensures Harmless(e, Contents(s), s.journal.live, next) {
      assert Harmless(e, Contents(s), s.journal.live, m);
    }
  }

  /** Every file durably at `v`, and no journal that could return. */
  ghost predicate Finished(s: State, v: Version) { DurablyAt(s, v) && s.journal == Certain(Absent) }

  lemma FinishedSurvives(s: State, k: Survivors, v: Version)
    requires Finished(s, v)
    ensures Finished(AfterLoss(s, k), v) && !Pending(AfterLoss(s, k))
  {
  }

  lemma DurableContents(s: State, v: Version)
    requires DurablyAt(s, v)
    ensures Contents(s) == v && Readable(s)
  {
    assert Contents(s).Keys == v.Keys;
  }

  lemma DurablyOnce(s: State, v: Version, w: Version)
    requires DurablyAt(s, v) && DurablyAt(s, w)
    ensures v == w
  {
    forall p | p in v ensures v[p] == w[p] { assert Text(v[p]) == Text(w[p]); }
  }

  /** How far an update has got: a visible journal leads to it, or is an earlier one that came back before any
      file had moved; with no journal, the files are all before or all after. */
  ghost predicate Arrives(s: State, from: Version, to: Version, stale: set<map<string, Images>>) {
    && (Pending(s) ==> LeadsTo(s, to) || (LeadsTo(s, from) && s.journal.live.files in stale && DurablyAt(s, from)))
    && (!Pending(s) ==> DurablyAt(s, from) || DurablyAt(s, to))
  }

  lemma SafeArrives(s: State, m: Move)
    requires Safe(s, m)
    ensures Arrives(s, m.from, m.to, m.stale)
  {
    if Pending(s) { PendingLeads(s, m); } else { NothingPending(s, m); }
  }

  /** With no journal visible, every journal that may return leads to the version in place. */
  lemma ReturningFinished(s: State, m: Move, t: map<string, Images>)
    requires Safe(s, m) && !Pending(s) && t in Returning(s)
    ensures Afters(t) == Contents(s) && s.directory == Certain(Directory)
  {
    NothingPending(s, m);
    assert Journal(t) in s.journal.possible;
    assert Harmless(Journal(t), Contents(s), s.journal.live, m);
  }

  /** A journal that may return does return, for some power loss. */
  lemma StaleReturns(s: State, t: map<string, Images>)
    requires s.directory == Certain(Directory) && t in Returning(s)
    ensures AfterLoss(s, Survivors(Directory, Journal(t), map[])).journal == Certain(Journal(t))
    ensures AfterLoss(s, Survivors(Directory, Journal(t), map[])).directory == Certain(Directory)
  {
  }

  class Machine {
    const files: seq<string>
    const parent: string -> string
    var disk: State
    var fates: seq<Fate>
    ghost var history: set<Event>
    ghost var move: Move

    constructor (files: seq<string>, parent: string -> string, initial: Version)
      requires forall p :: p in files <==> p in initial
      ensures this.files == files && Shaped() && fates == [] && history == {}
      ensures move == Move(initial, initial, {}) && Quiet(disk, initial, move) && AllGood()
    {
      this.files := files;
      this.parent := parent;
      disk := State(Certain(Absent), Certain(Absent), map p | p in initial :: Certain(Text(initial[p])));
      fates := [];
      history := {};
      move := Move(initial, initial, {});
      new;
      QuietContents(disk, initial, move);
    }

    /** The tracked names are exactly the fixed inventory. */
    ghost predicate Shaped()
      reads this
    {
      forall p :: p in files <==> p in disk.tracked
    }

    /** Every step so far kept the write order and left a disk that is all before, all after or protected. */
    ghost predicate AllGood()
      reads this
    {
      Safe(disk, move) && forall e :: e in history ==> GoodEvent(e)
    }

    method LosePower(k: Survivors)
      modifies this`disk, this`history
      ensures disk == AfterLoss(old(disk), k) && history == old(history) + {Event(PowerLoss, old(disk), disk, move)}
      ensures old(AllGood()) ==> AllGood()
      ensures old(Shaped()) ==> Shaped()
    {
      ghost var before := disk;
      disk := AfterLoss(disk, k);
      history := history + {Event(PowerLoss, before, disk, move)};
      if Safe(before, move) { SafeSurvives(before, k, move); }
    }

    /** Takes the next fate; a power loss settles the disk arbitrarily. */
    method Attempt() returns (o: Outcome)
      modifies this`disk, this`fates, this`history
      ensures o in {Completed, Failed, Lost}
      ensures o != Lost ==> disk == old(disk) && history == old(history)
      ensures o == Lost ==> exists k :: disk == AfterLoss(old(disk), k)
      ensures StartsWithLoss(old(fates)) ==> o == Lost && disk == AfterLoss(old(disk), old(fates)[0].survivors)
      ensures Spends(old(fates), fates, o, 1) && (LateFailure(old(fates)) && |old(fates)| == 1 ==> o == Failed)
      ensures old(fates) == [] ==> o == Completed && fates == []
      ensures old(AllGood()) ==> AllGood()
      ensures old(Shaped()) ==> Shaped()
    {
      if fates == [] { return Completed; }
      var fate := fates[0];
      fates := fates[1..];
      match fate
      case Works => o := Completed;
      case Raises => o := Failed;
      case LosesPower(k) =>
        LosePower(k);
        o := Lost;
    }

    /** The staged copy: written, then flushed. Nothing on disk that anyone reads changes. */
    method StageBytes() returns (o: Outcome, flushed: bool)
      modifies this`disk, this`fates, this`history
      ensures o in {Completed, Failed, Lost} && (o == Completed ==> flushed) && Spends(old(fates), fates, o, 2)
      ensures o != Lost ==> disk == old(disk) && history == old(history)
      ensures old(fates) == [] ==> o == Completed && fates == []
      ensures old(AllGood()) ==> AllGood()
      ensures old(Shaped()) ==> Shaped()
    {
      flushed := false;
      o := Attempt();
      if o == Completed {
        o := Attempt();
        flushed := o == Completed;
      }
    }

    /** The rename: visible at once, durable later. */
    method Rename(target: Target, e: Entry, flushed: bool) returns (o: Outcome)
      requires Has(disk, target)
      modifies this`disk, this`fates, this`history
      ensures o in {Completed, Failed, Lost}
      ensures o == Failed ==> disk == old(disk) && history == old(history)
      ensures o == Completed ==> disk == Placed(old(disk), target, e, flushed)
      ensures Spends(old(fates), fates, o, 1)
      ensures old(fates) == [] ==> o == Completed && fates == []
      ensures old(AllGood()) && GoodEvent(Replacement(old(disk), target, e, flushed, move)) ==> AllGood()
      ensures old(Shaped()) ==> Shaped()
    {
      o := Attempt();
      if o == Completed {
        ghost var event := Replacement(disk, target, e, flushed, move);
        disk := Placed(disk, target, e, flushed);
        history := history + {event};
      }
    }

    method SynchroniseParent(target: Target) returns (o: Outcome)
      modifies this`disk, this`fates, this`history
      ensures o in {Completed, Failed, Lost}
      ensures o == Failed ==> disk == old(disk) && history == old(history)
      ensures o == Completed ==> disk == Settled(old(disk), parent, target)
      ensures Spends(old(fates), fates, o, 1) && (LateFailure(old(fates)) && |old(fates)| == 1 ==> o == Failed)
      ensures old(fates) == [] ==> o == Completed && fates == []
      ensures old(AllGood()) ==> AllGood()
      ensures old(Shaped()) ==> Shaped()
    {
      o := Attempt();
      if o == Completed {
        ghost var before := disk;
        disk := Settled(disk, parent, target);
        history := history + {Event(Synchronise, before, disk, move)};
        if Safe(before, move) { SettledGood(before, parent, target, move); }
      }
    }

    /** Stage the bytes, flush them, rename, synchronise the directory. */
    method ReplaceFile(target: Target, e: Entry) returns (o: Outcome)
      requires Shaped() && Has(disk, target)
      modifies this`disk, this`fates, this`history
      ensures Shaped() && o in {Completed, Failed, Lost}
      ensures o == Completed ==> disk == Settled(Placed(old(disk), target, e, true), parent, target)
      ensures o == Failed ==> disk == old(disk) || disk == Placed(old(disk), target, e, true)
      ensures old(fates) == [] && (target.JournalFile? ==> old(disk).directory.live == Directory)
              ==> o == Completed && fates == []
      ensures (target.JournalFile? ==> old(disk).directory.live == Directory) ==> Spends(old(fates), fates, o, 4)
      ensures old(AllGood()) && GoodEvent(Replacement(old(disk), target, e, true, move)) ==> AllGood()
    {
      if target.JournalFile? && disk.directory.live != Directory { return Failed; }
      var flushed;
      o, flushed := StageBytes();
      if o != Completed { return; }
      o := Rename(target, e, flushed);
      if o != Completed { return; }
      o := SynchroniseParent(target);
    }

    /** Publishes the journal directory, or repairs the durability of one that is already visible. */
    method EnsureJournalDirectory() returns (o: Outcome)
      requires Shaped()
      modifies this`disk, this`fates, this`history
      ensures Shaped() && o in {Completed, Failed, Lost}
      ensures o == Completed ==> disk == old(disk).(directory := Certain(Directory))
      ensures o == Failed ==> disk.journal == old(disk).journal && disk.tracked == old(disk).tracked
      ensures Spends(old(fates), fates, o, DirectoryCalls(old(disk)))
      ensures StartsWithLoss(old(fates)) ==> o == Lost && disk == AfterLoss(old(disk), old(fates)[0].survivors)
      ensures old(fates) == [] ==> o == Completed && fates == []
      ensures old(AllGood()) ==> AllGood()
    {
      if disk.directory.live != Directory {
        o := Attempt();                     // create the staging directory
        if o != Completed { return; }
        o := Attempt();                     // rename it into place
        if o != Completed { return; }
        if Safe(disk, move) { DirectoryGood(disk, move); }
        ghost var before := disk;
        disk := DirectoryPlaced(disk);
        history := history + {Event(PlaceDirectory, before, disk, move)};
        o := SynchroniseRoot();
        if o != Completed { return; }
      }
      o := SynchroniseRoot();
    }

    method SynchroniseRoot() returns (o: Outcome)
      modifies this`disk, this`fates, this`history
      ensures o in {Completed, Failed, Lost}
      ensures o == Completed ==> disk == RootSettled(old(disk))
      ensures Spends(old(fates), fates, o, 1)
      ensures o == Failed ==> disk == old(disk)
      ensures StartsWithLoss(old(fates)) ==> o == Lost && disk == AfterLoss(old(disk), old(fates)[0].survivors)
      ensures old(fates) == [] ==> o == Completed && fates == []
      ensures old(AllGood()) ==> AllGood()
      ensures old(Shaped()) ==> Shaped()
    {
      o := Attempt();
      if o == Completed {
        if Safe(disk, move) { DirectoryGood(disk, move); }
        ghost var before := disk;
        disk := RootSettled(disk);
        history := history + {Event(Synchronise, before, disk, move)};
      }
    }

    /** Makes the visible journal durable before trusting it. */
    method RecommitJournal(t: map<string, Images>) returns (o: Outcome)
      requires Shaped() && disk.directory.live == Directory && disk.journal.live == Journal(t)
      modifies this`disk, this`fates, this`history
      ensures Shaped() && o in {Completed, Failed, Lost}
      ensures o == Completed ==>
        disk == old(disk).(directory := Certain(Directory), journal := Certain(Journal(t)))
      ensures o == Failed ==> disk.journal.live == Journal(t)
      ensures Spends(old(fates), fates, o, 5)
      ensures old(fates) == [] ==> o == Completed && fates == []
      ensures old(AllGood()) ==> AllGood() && (o == Completed ==> Armed(disk, t))
    {
      o := EnsureJournalDirectory();
      if o != Completed { return; }
      ghost var before := disk;
      if old(AllGood()) {
        assert disk == old(disk).(directory := Certain(Directory));
        if Quiet(before, Contents(before), move) {
          JournalGood(before, parent, t, move);
        } else {
          JournalAgain(before, parent, t, move);
        }
      }
      o := ReplaceFile(JournalFile, Journal(t));
    }

    /** Replaces one tracked file; files that are already certain stay as they are. */
    method RollOne(t: map<string, Images>, path: string) returns (o: Outcome)
      requires Shaped() && t.Keys == disk.tracked.Keys && path in t
      modifies this`disk, this`fates, this`history
      ensures Shaped() && o in {Completed, Failed, Lost}
      ensures o == Completed ==> disk.directory == old(disk).directory && disk.journal == old(disk).journal
      ensures o == Completed ==> disk.tracked.Keys == t.Keys && AtAfter(disk, t, path)
      ensures o == Completed ==> forall p :: p in t && AtAfter(old(disk), t, p) ==> AtAfter(disk, t, p)
      ensures Spends(old(fates), fates, o, 4)
      ensures old(fates) == [] ==> o == Completed && fates == []
      ensures o == Failed ==> disk.journal == old(disk).journal
      ensures old(AllGood()) && old(Armed(disk, t)) ==> AllGood() && (o == Completed ==> Armed(disk, t))
    {
      if AllGood() && Armed(disk, t) { RollForwardGood(disk, parent, t, path, move); }
      o := ReplaceFile(TrackedFile(path), Text(t[path].after));
    }

    /** Rewrites every tracked file with its after image, already visible or not. */
    method RollForward(t: map<string, Images>) returns (o: Outcome)
      requires Shaped() && t.Keys == disk.tracked.Keys
      modifies this`disk, this`fates, this`history
      ensures Shaped() && o in {Completed, Failed, Lost}
      ensures o == Completed ==> disk.directory == old(disk).directory && disk.journal == old(disk).journal
      ensures o == Completed ==> DurablyAt(disk, Afters(t))
      ensures Spends(old(fates), fates, o, 4 * |files|)
      ensures old(fates) == [] ==> o == Completed && fates == []
      ensures o == Failed ==> disk.journal == old(disk).journal
      ensures old(AllGood()) && old(Armed(disk, t)) ==> AllGood() && (o == Completed ==> Armed(disk, t))
    {
      o := Completed;
      for i := 0 to |files|
        invariant Shaped() && t.Keys == disk.tracked.Keys && o == Completed
        invariant disk.directory == old(disk).directory && disk.journal == old(disk).journal
        invariant forall j :: 0 <= j < i ==> AtAfter(disk, t, files[j])
        invariant old(fates) == [] ==> fates == []
        invariant LateFailure(old(fates)) && |old(fates)| > 4 * |files| ==>
          LateFailure(fates) && |fates| == |old(fates)| - 4 * i
        invariant old(AllGood()) && old(Armed(disk, t)) ==> AllGood() && Armed(disk, t)
      {
        o := RollOne(t, files[i]);
        if o != Completed { return; }
      }
      forall p | p in t ensures AtAfter(disk, t, p) { assert p in files; }
      AllAtAfter(disk, t);
    }

    method UnlinkJournal() returns (o: Outcome)
      requires disk.journal.live.Journal?
      modifies this`disk, this`fates, this`history
      ensures o in {Completed, Failed, Lost}
      ensures o == Completed ==> disk == JournalRemoved(old(disk))
      ensures o == Failed ==> disk == old(disk)
      ensures Spends(old(fates), fates, o, 1)
      ensures old(fates) == [] ==> o == Completed && fates == []
      ensures old(AllGood()) && GoodEvent(Event(RemoveJournal, old(disk), JournalRemoved(old(disk)), move)) ==> AllGood()
      ensures old(Shaped()) ==> Shaped()
    {
      o := Attempt();
      if o == Completed {
        ghost var event := Event(RemoveJournal, disk, JournalRemoved(disk), move);
        disk := JournalRemoved(disk);
        history := history + {event};
      }
    }

    method DiscardJournal(ghost t: map<string, Images>) returns (o: Outcome)
      requires Shaped() && DurablyAt(disk, Afters(t)) && disk.journal == Certain(Journal(t))
      modifies this`disk, this`fates, this`history
      ensures Shaped() && o in {Completed, Failed, Lost}
      ensures o == Completed ==> disk == old(disk).(journal := Certain(Absent))
      ensures o == Failed ==> disk == old(disk) || disk == JournalRemoved(old(disk))
      ensures LateFailure(old(fates)) && |old(fates)| == 2 ==> o == Failed && disk == JournalRemoved(old(disk))
      ensures old(fates) == [] ==> o == Completed && fates == []
      ensures old(AllGood()) && old(Armed(disk, t)) ==> AllGood()
    {
      if AllGood() && Armed(disk, t) { RemovalGood(disk, t, move); }
      o := UnlinkJournal();
      if o != Completed { return; }
      o := SynchroniseParent(JournalFile);
    }

    /** Rolls an interrupted refresh forward. */
    method RecoverTransaction(check: bool) returns (o: Outcome)
      requires Shaped()
      modifies this`disk, this`fates, this`history
      ensures Shaped()
      ensures o == Unchanged <==> !old(Pending(disk))
      ensures !old(Pending(disk)) || !old(Unedited(disk)) || check ==>
        disk == old(disk) && history == old(history) && fates == old(fates) && o in {Unchanged, Declined, Failed}
      ensures o == Completed ==> old(Unedited(disk)) && !check
      ensures o == Completed ==> DurablyAt(disk, Afters(old(disk).journal.live.files)) && disk.journal == Certain(Absent)
      ensures o == Failed && old(Unedited(disk)) ==>
        || disk.journal.live == old(disk).journal.live
        || (disk.journal.live == Absent && DurablyAt(disk, Afters(old(disk).journal.live.files)))
      ensures old(Pending(disk)) && old(Unedited(disk)) && !check ==>
        o in {Completed, Failed, Lost} && (old(fates) == [] ==> o == Completed && fates == [])
      ensures old(Pending(disk)) && old(Unedited(disk)) && !check
              && LateFailure(old(fates)) && |old(fates)| == RecoveryCalls(|files|) ==>
        && o == Failed && disk.journal.live == Absent && old(disk).journal.live in disk.journal.possible
        && DurablyAt(disk, Afters(old(disk).journal.live.files))
      ensures old(AllGood()) ==> AllGood() && (old(Pending(disk)) ==> old(Unedited(disk)))
    {
      if AllGood() && Pending(disk) { SafePendingIsUnedited(disk, move); }
      if !(disk.directory.live == Directory && disk.journal.live != Absent) { return Unchanged; }
      if !disk.journal.live.Journal? { return Declined; }
      var t := disk.journal.live.files;
      if t.Keys != disk.tracked.Keys { return Declined; }
      if exists p :: p in disk.tracked && !disk.tracked[p].live.Text? { return Failed; }
      if exists p :: p in disk.tracked && disk.tracked[p].live !in {Text(t[p].before), Text(t[p].after)} { return Declined; }
      if check { return Declined; }
      o := RecommitJournal(t);
      if o != Completed { return; }
      o := RollForward(t);
      if o != Completed { return; }
      o := DiscardJournal(t);
    }

    /** Reads every before image and publishes the journal of the whole update. */
    method PublishJournal(updates: Version) returns (o: Outcome)
      requires Shaped() && updates.Keys == disk.tracked.Keys
      modifies this`disk, this`fates, this`history
      ensures Shaped() && o in {Completed, Failed, Lost}
      ensures o == Completed ==> Pending(disk) && Unedited(disk) && LeadsTo(disk, updates)
      ensures o == Failed && old(disk).journal.live == Absent ==>
        disk.tracked == old(disk).tracked && (disk.journal == old(disk).journal || LeadsTo(disk, updates))
      ensures old(fates) == [] && Readable(old(disk)) ==> o == Completed && fates == []
      ensures Readable(old(disk)) ==> Spends(old(fates), fates, o, DirectoryCalls(old(disk)) + 4)
      ensures StartsWithLoss(old(fates)) ==> o == Lost && disk == AfterLoss(old(disk), old(fates)[0].survivors)
      ensures old(AllGood()) && !old(Pending(disk)) && move.from == Contents(old(disk)) && move.to == updates ==> AllGood()
    {
      o := EnsureJournalDirectory();
      if o != Completed { return; }
      if exists p :: p in disk.tracked && !disk.tracked[p].live.Text? { return Failed; }
      var t := map p | p in disk.tracked :: Images(disk.tracked[p].live.text, updates[p]);
      AftersOf(disk, t, updates);
      o := PlaceNewJournal(t);
    }

    /** Places a journal of the visible texts in a durable directory. */
    method PlaceNewJournal(t: map<string, Images>) returns (o: Outcome)
      requires Shaped() && disk.directory == Certain(Directory) && t.Keys == disk.tracked.Keys
      requires forall p :: p in t ==> disk.tracked[p].live == Text(t[p].before)
      modifies this`disk, this`fates, this`history
      ensures Shaped() && o in {Completed, Failed, Lost}
      ensures o == Completed ==> Pending(disk) && Unedited(disk) && disk.journal.live.files == t
      ensures o == Failed ==> disk.tracked == old(disk).tracked && (disk.journal == old(disk).journal || disk.journal.live == Journal(t))
      ensures Spends(old(fates), fates, o, 4)
      ensures old(fates) == [] ==> o == Completed && fates == []
      ensures old(AllGood()) && old(disk).journal.live == Absent && move.from == Contents(old(disk)) && Afters(t) == move.to ==> AllGood()
    {
      ghost var before := disk;
      if AllGood() && disk.journal.live == Absent && move.from == Contents(disk) && Afters(t) == move.to {
        AfterImages(t, move.to);
        NewJournal(disk, parent, t, move);
      }
      o := ReplaceFile(JournalFile, Journal(t));
      if o == Completed { JournalIsUnedited(before, parent, t); }
    }

    /** Journals the complete update, then recovers. Stopped anywhere, the journal it leaves leads to the
        update; only a power loss can bring back a journal of an earlier, finished update instead. */
    method PublishTransaction(updates: Version) returns (o: Outcome)
      requires Shaped() && updates.Keys == disk.tracked.Keys
      modifies this
      ensures Shaped() && o in {Completed, Failed, Lost}
      ensures o == Completed ==> DurablyAt(disk, updates) && disk.journal == Certain(Absent)
      ensures o == Failed && old(disk).journal.live == Absent && Pending(disk) ==> LeadsTo(disk, updates)
      ensures old(fates) == [] && Readable(old(disk)) ==> o == Completed && fates == []
      ensures Readable(old(disk)) && LateFailure(old(fates)) && |old(fates)| == PublishCalls(old(disk), |files|) ==>
        o == Failed && disk.journal.live == Absent && DurablyAt(disk, updates) && Returning(disk) != {}
      ensures StartsWithLoss(old(fates)) ==> o == Lost && disk == AfterLoss(old(disk), old(fates)[0].survivors)
      ensures old(AllGood()) && !old(Pending(disk)) ==>
        AllGood() && move == Move(Contents(old(disk)), updates, Returning(old(disk)))
      ensures old(AllGood()) && !old(Pending(disk)) ==> Arrives(disk, Contents(old(disk)), updates, Returning(old(disk)))
    {
      ghost var next := Move(Contents(disk), updates, Returning(disk));
      if AllGood() && !Pending(disk) {
        NothingPending(disk, move);
        NextMove(disk, move, updates);
      }
      move := next;
      o := PublishJournal(updates);
      if o == Completed {
        ghost var published := disk.journal.live;
        o := RecoverTransaction(false);
        if published in disk.journal.possible { assert published.files in Returning(disk); }
      }
      if old(AllGood()) && !old(Pending(disk)) { SafeArrives(disk, move); }
    }

    /** One invocation of the refresh. `decision` is what the read-only validation concluded. */
    method Refresh(check: bool, decision: Decision) returns (o: Outcome)
      requires Shaped() && (decision.Update? ==> decision.after.Keys == disk.tracked.Keys)
      modifies this
      ensures Shaped()
      ensures check ==> disk == old(disk) && history == old(history) && o != Completed
      ensures o == Completed ==> disk.journal == Certain(Absent)
      ensures o == Completed && old(Pending(disk)) ==>
        old(Unedited(disk)) && DurablyAt(disk, Afters(old(disk).journal.live.files))
      ensures o == Completed && !old(Pending(disk)) ==> decision.Update? && DurablyAt(disk, decision.after)
      ensures o == Failed && old(Pending(disk)) && old(Unedited(disk)) && Pending(disk) ==>
        disk.journal.live == old(disk).journal.live
      ensures o == Failed && old(disk).journal.live == Absent && Pending(disk) ==>
        decision.Update? && LeadsTo(disk, decision.after)
      ensures old(fates) == [] && !check && old(Pending(disk)) && old(Unedited(disk)) ==> o == Completed
      ensures old(fates) == [] && !check && !old(Pending(disk)) && decision.Update? && Readable(old(disk)) ==> o == Completed
      ensures old(AllGood()) ==> AllGood()
      ensures old(AllGood()) && old(Pending(disk)) ==> move == old(move)
      ensures old(AllGood()) && !old(Pending(disk)) && !check && decision.Update? ==>
        Arrives(disk, Contents(old(disk)), decision.after, Returning(old(disk)))
    {
      o := RecoverTransaction(check);
      if o != Unchanged { return; }
      match decision
      case Refuse => o := Declined;
      case Current => o := Unchanged;
      case Update(after) =>
        if check { return Declined; }
        o := PublishTransaction(after);
    }

    /** Any number of refreshes, each under its own script of failures and power losses. */
    method Campaign(runs: seq<Run>)
      requires Shaped()
      requires forall i :: 0 <= i < |runs| && runs[i].decision.Update? ==> runs[i].decision.after.Keys == disk.tracked.Keys
      modifies this
      ensures Shaped()
      ensures old(AllGood()) ==> AllGood()
    {
      ghost var inventory := disk.tracked.Keys;
      for i := 0 to |runs|
        invariant Shaped() && disk.tracked.Keys == inventory
        invariant old(AllGood()) ==> AllGood()
      {
        if runs[i].restart.Outage? { LosePower(runs[i].restart.survivors); }
        fates := runs[i].fates;
        var o := Refresh(runs[i].check, runs[i].decision);
      }
    }

    // ---------- Convergence ----------

    /** One recovery. It ends at the update unless it acted on a stale journal. */
    method RecoverOnce() returns (o: Outcome)
      requires Shaped() && AllGood()
      modifies this`disk, this`fates, this`history
      ensures Shaped() && AllGood()
      ensures o == Completed ==> disk.journal == Certain(Absent) && old(Pending(disk))
      ensures o == Completed && LeadsTo(old(disk), move.to) ==> DurablyAt(disk, move.to)
      ensures old(Pending(disk)) && move.stale == {} ==> LeadsTo(old(disk), move.to)
      ensures o != Lost && Pending(disk) ==> disk.journal.live == old(disk).journal.live && old(Pending(disk))
      ensures !old(Pending(disk)) ==> disk == old(disk) && o == Unchanged
    {
      if Pending(disk) { PendingLeads(disk, move); }
      o := RecoverTransaction(false);
    }

    /** One attempt to recover, under its own script. `lost` notes whether power has been lost. */
    method Retry(retry: Attempted, lostBefore: bool) returns (o: Outcome, lost: bool)
      requires Shaped() && AllGood()
      requires !lostBefore && Pending(disk) ==> LeadsTo(disk, move.to)
      modifies this`disk, this`fates, this`history
      ensures Shaped() && AllGood() && (lostBefore ==> lost)
      ensures o == Completed && (lost ==> move.stale == {}) ==> Finished(disk, move.to)
      ensures !lost && Pending(disk) ==> LeadsTo(disk, move.to)
      ensures old(Finished(disk, move.to)) ==> Finished(disk, move.to)
    {
      lost := lostBefore;
      if retry.restart.Outage? {
        if Finished(disk, move.to) { FinishedSurvives(disk, retry.restart.survivors, move.to); }
        LosePower(retry.restart.survivors);
        lost := true;
      }
      fates := retry.fates;
      o := RecoverOnce();
      if o == Lost { lost := true; }
    }

    /** An update, and then any number of attempts to recover it, each interrupted anywhere. Whenever a
        recovery has finished, the files are at the update, unless a power loss brought back the journal of an
        earlier update; that takes a journal whose removal was not durable when the update began. */
    method PublishAndRecover(updates: Version, retries: seq<Attempted>) returns (done: bool, lost: bool)
      requires Shaped() && AllGood() && !Pending(disk) && updates.Keys == disk.tracked.Keys
      modifies this
      ensures Shaped() && AllGood() && Arrives(disk, Contents(old(disk)), updates, Returning(old(disk)))
      ensures done && (lost ==> Returning(old(disk)) == {}) ==> Finished(disk, updates)
      ensures !lost && Pending(disk) ==> LeadsTo(disk, updates)
      ensures Returning(old(disk)) == {} && Pending(disk) ==> LeadsTo(disk, updates)
    {
      NothingPending(disk, move);
      var o := PublishTransaction(updates);
      done, lost := o == Completed, o == Lost;
      for i := 0 to |retries|
        invariant Shaped() && AllGood() && move == Move(Contents(old(disk)), updates, Returning(old(disk)))
        invariant done && (lost ==> Returning(old(disk)) == {}) ==> Finished(disk, updates)
        invariant !lost && Pending(disk) ==> LeadsTo(disk, updates)
      {
        o, lost := Retry(retries[i], lost);
        done := done || o == Completed;
      }
      SafeArrives(disk, move);
    }

    /** The exception is real: whenever a journal of an earlier update can still return, losing power as the next
        update begins brings it back, and a successful recovery then ends at the earlier version. */
    method EarlierUpdateReturns(updates: Version) returns (o: Outcome)
      requires Shaped() && AllGood() && !Pending(disk) && updates.Keys == disk.tracked.Keys
      requires Returning(disk) != {}
      modifies this
      ensures o == Completed && DurablyAt(disk, Contents(old(disk)))
      ensures updates != Contents(old(disk)) ==> !DurablyAt(disk, updates)
    {
      var t :| t in Returning(disk);
      ReturningFinished(disk, move, t);
      StaleReturns(disk, t);
      fates := [LosesPower(Survivors(Directory, Journal(t), map[]))];
      o := PublishTransaction(updates);
      assert Pending(disk) && disk.journal.live == Journal(t);
      fates := [];
      o := RecoverTransaction(false);
      if DurablyAt(disk, updates) { DurablyOnce(disk, Contents(old(disk)), updates); }
    }

    /** An update in which only the last of its calls fails, the synchronisation after the journal was removed: the
        files are durably at the update and no journal is visible, yet the removed one can still return. */
    method LastCallFails(updates: Version) returns (o: Outcome)
      requires Shaped() && AllGood() && !Pending(disk) && updates.Keys == disk.tracked.Keys
      modifies this
      ensures o == Failed && Shaped() && AllGood() && !Pending(disk)
      ensures DurablyAt(disk, updates) && Contents(disk) == updates && Returning(disk) != {}
    {
      NothingPending(disk, move);
      DurableContents(disk, Contents(disk));
      var calls := (if disk.directory.live == Directory then 1 else 4) + 4 + 5 + 4 * |files| + 2;
      fates := seq(calls - 1, _ => Works) + [Raises];
      o := PublishTransaction(updates);
      DurableContents(disk, updates);
    }

    /** From any settled disk: one update whose last call fails, and a power loss at the start of the
        next one. Recovery succeeds and ends at the first update, not at the second. */
    method FirstUpdateWins(first: Version, second: Version) returns (o: Outcome)
      requires Shaped() && AllGood() && !Pending(disk)
      requires first.Keys == second.Keys == disk.tracked.Keys && first != second
      modifies this
      ensures o == Completed && DurablyAt(disk, first) && !DurablyAt(disk, second)
    {
      o := LastCallFails(first);
      o := EarlierUpdateReturns(second);
    }
  }

  datatype Decision = Refuse | Current | Update(after: Version)

  /** Whether power was lost between two invocations. */
  datatype Restart = Uninterrupted | Outage(survivors: Survivors)

  datatype Run = Run(restart: Restart, check: bool, decision: Decision, fates: seq<Fate>)

  datatype Attempted = Attempted(restart: Restart, fates: seq<Fate>)

  ghost predicate Readable(s: State) { forall p :: p in s.tracked ==> s.tracked[p].live.Text? }

  lemma AfterImages(t: map<string, Images>, v: Version)
    requires Afters(t) == v
    ensures t.Keys == v.Keys && forall p :: p in t ==> t[p].after == v[p]
  {
    forall p | p in t ensures p in v && t[p].after == v[p] { assert Afters(t)[p] == t[p].after; }
    assert Afters(t).Keys == t.Keys;
  }

  lemma AftersOf(s: State, t: map<string, Images>, updates: Version)
    requires t.Keys == s.tracked.Keys == updates.Keys && forall p :: p in t ==> t[p].after == updates[p]
    ensures Afters(t) == updates
  {
  }

  /** A journal just published from the visible texts is one that recovery accepts. */
  lemma JournalIsUnedited(s: State, parent: string -> string, t: map<string, Images>)
    requires s.directory.live == Directory && t.Keys == s.tracked.Keys
    requires forall p :: p in t ==> s.tracked[p].live == Text(t[p].before)
    ensures var after := Settled(Placed(s, JournalFile, Journal(t), true), parent, JournalFile);
      Pending(after) && Unedited(after) && after.journal.live.files == t
  {
  }

  /** With no journal visible, the journal of a new update may be placed. */
  lemma NewJournal(s: State, parent: string -> string, t: map<string, Images>, m: Move)
    requires Safe(s, m) && s.directory == Certain(Directory) && s.journal.live == Absent
    requires Contents(s) == m.from && t.Keys == s.tracked.Keys == m.to.Keys
    requires forall p :: p in t ==> s.tracked[p].live == Text(t[p].before) && t[p].after == m.to[p]
    ensures GoodEvent(Replacement(s, JournalFile, Journal(t), true, m))
  {
    assert Befores(t) == Contents(s);
    assert Afters(t) == m.to;
    JournalGood(s, parent, t, m);
  }
}
