/**
 Any number of targets, synced in any order under rules that may change between two syncs, with failed syncs
 and anything done to the stores in between: no prune takes away a key that some target's latest record
 lists in the key space being pruned.
 */
module SyncHistory {
  import opened Options
  import opened Settings
  import opened Ledger
  import opened KeySpaces
  import opened PruneConfigs
  import opened Sinks
  import opened Prune
  import opened PruneSafety

  // -- One sync -----------------------------------------------------------------

  /** One environment of a sync: the files written, what its prune reads back, and what deleting does. */
  datatype Part = Part(env: string, ws: seq<Writing>, live: Option<map<Key, Live>>, answer: DeleteAnswer)

  /**
   A whole sync under the world, sink class and rule of its moment: its files written, every environment
   pruned against the ledger as it was, all recorded. One that is not *complete* stopped at a write that
   failed, in a sink that keeps what was written: the parts hold the files before it, and nothing is pruned.
   */
  datatype Sync = Sync(w: World, cls: string, rule: Rule, cfg: PruneConfig, tenant: string, datasource: string,
                       readable: bool, complete: bool, parts: seq<Part>)

  /** A key of a key space. */
  datatype Cell = Cell(space: string, key: Key)

  /**
   The ledger, the keys the stores hold, those something else took away since varTrack wrote them, and those
   a record puts into a key space that varTrack did not write them to: a sync under a moved rule records the
   new key space for the files it did not write again, too.
   */
  datatype State = State(db: Db, store: set<Cell>, gone: set<Cell>, misplaced: set<Cell>)

  function PartTarget(y: Sync, p: Part): Target {
    Target(y.tenant, y.datasource, p.env)
  }

  /** Where the sync puts a part's keys. */
  function Place(y: Sync, p: Part): string {
    KeySpaceId(y.w, y.cls, y.rule, y.tenant, p.env)
  }

  function LedgerFor(y: Sync, db: Db): Option<Db> {
    if y.readable && y.complete then Some(db) else None
  }

  /** The keys the part's prune passes to delete_keys. */
  function MineOf(db: Db, y: Sync, p: Part): set<Key> {
    Mine(y.w, y.cls, y.rule, y.cfg, LedgerFor(y, db), PartTarget(y, p), p.ws, p.live)
  }

  /** The keys it may pass, whatever the sink reads back: known from the ledger, the rule and the files alone. */
  function Deletable(db: Db, y: Sync, p: Part): set<Key> {
    if Prunes(y.w, y.cls, y.rule, y.cfg, LedgerFor(y, db), PartTarget(y, p), p.ws) && !y.cfg.dryRun
    then Candidates(y.w, y.cls, y.rule, y.cfg, db, PartTarget(y, p), p.ws)
    else {}
  }

  lemma MineIsDeletable(db: Db, y: Sync, p: Part)
    ensures MineOf(db, y, p) <= Deletable(db, y, p)
  {
  }

  /** The keys still to delete after the part's prune; None when it did not run. */
  function PendingAfter(db: Db, y: Sync, p: Part): Option<set<Key>> {
    var me := PartTarget(y, p);
    if !Prunes(y.w, y.cls, y.rule, y.cfg, LedgerFor(y, db), me, p.ws) then None
    else if y.cfg.dryRun || p.live == None then Some(Candidates(y.w, y.cls, y.rule, y.cfg, db, me, p.ws))
    else Some(if p.answer.DeleteRaises? then MineOf(db, y, p) else {})
  }

  /** It is what the prune's outcome says. */
  lemma PendingAfterIsOutcome(db: Db, y: Sync, p: Part, outcome: Option<PruneOutcome>, calls: seq<DeleteCall>)
    requires OutcomeOf(y.w, y.cls, y.rule, y.cfg, LedgerFor(y, db), PartTarget(y, p), p.ws, p.live, p.answer, outcome,
                       calls)
    ensures PendingAfter(db, y, p) == if outcome.Some? then Some(KeySet(outcome.value.pending)) else None
  {
    if outcome.Some? && (y.cfg.dryRun || p.live == None) {
      assert KeySet(outcome.value.skipped) == {};
      assert KeySet(outcome.value.pending) == Candidates(y.w, y.cls, y.rule, y.cfg, db, PartTarget(y, p), p.ws);
    }
  }

  function RecordAfter(db: Db, y: Sync, p: Part): Option<Record> {
    RecordedAll(Get(db, PartTarget(y, p)), p.ws, PendingAfter(db, y, p), Some(Place(y, p)), y.w.digestOf)
  }

  function PartFor(y: Sync, parts: seq<Part>, t: Target): Option<Part> {
    if parts == [] then None
    else if PartTarget(y, parts[0]) == t then Some(parts[0])
    else PartFor(y, parts[1..], t)
  }

  function Written(y: Sync): set<Cell> {
    set i, k | 0 <= i < |y.parts| && k in WrittenKeys(y.parts[i].ws) :: Cell(Place(y, y.parts[i]), k)
  }

  function Taken(db: Db, y: Sync): set<Cell> {
    set i, k | 0 <= i < |y.parts| && k in Removed(MineOf(db, y, y.parts[i]), y.parts[i].answer) ::
        Cell(Place(y, y.parts[i]), k)
  }

  /** The keys of files not written again whose target was not recorded where the sync puts it now. */
  function Strays(db: Db, y: Sync): set<Cell> {
    set i, k | 0 <= i < |y.parts| && PartTarget(y, y.parts[i]) in db
               && db[PartTarget(y, y.parts[i])].keySpace != Some(Place(y, y.parts[i]))
               && k in KeptKeys(db, PartTarget(y, y.parts[i]), y.parts[i].ws) ::
      Cell(Place(y, y.parts[i]), k)
  }

  function Recording(db: Db, y: Sync): Db {
    map t | t in db.Keys + (set i | 0 <= i < |y.parts| :: PartTarget(y, y.parts[i]))
          && (t in db || (PartFor(y, y.parts, t).Some? && RecordAfter(db, y, PartFor(y, y.parts, t).value).Some?)) ::
      var p := PartFor(y, y.parts, t);
      if p.Some? && RecordAfter(db, y, p.value).Some? then RecordAfter(db, y, p.value).value else db[t]
  }

  function AfterSync(s: State, y: Sync): State {
    State(Recording(s.db, y), s.store + Written(y) - Taken(s.db, y), s.gone - Written(y),
          s.misplaced + Strays(s.db, y) - Written(y))
  }

  // -- A run --------------------------------------------------------------------

  datatype Event = Synced(sync: Sync) | Outside(store: set<Cell>)

  function Step(s: State, e: Event): State {
    match e
    case Synced(y) => AfterSync(s, y)
    case Outside(store) => State(s.db, store, s.gone + (s.store - store), s.misplaced)
  }

  /** Each environment once, each with files, and no file twice. */
  ghost predicate SyncAllowed(y: Sync) {
    && (forall i, j :: 0 <= i < j < |y.parts| ==> y.parts[i].env != y.parts[j].env)
    && (forall i :: 0 <= i < |y.parts| ==> y.parts[i].ws != [] && DistinctFiles(y.parts[i].ws))
  }

  predicate InSync(y: Sync, t: Target) {
    exists i :: 0 <= i < |y.parts| && PartTarget(y, y.parts[i]) == t
  }

  /**
   The prunes notice every target outside the sync whose record lists keys where they prune: its tenant is
   the sync's own or registered, and the rule still puts it there when it is of the same datasource.
   */
  ghost predicate Heeded(db: Db, y: Sync) {
    forall t, j :: t in db && !InSync(y, t) && 0 <= j < |y.parts| && Place(y, y.parts[j]) != ""
                   && db[t].keySpace == Some(Place(y, y.parts[j])) ==>
      Notices(y.w, y.cls, y.rule, PartTarget(y, y.parts[j]), t)
  }

  /** No key written to one environment is up for deletion from another in the same key space. */
  ghost predicate NothingCrosses(db: Db, y: Sync) {
    forall i, j :: 0 <= i < |y.parts| && 0 <= j < |y.parts| && i != j
                   && Place(y, y.parts[i]) == Place(y, y.parts[j]) ==>
      WrittenKeys(y.parts[i].ws) !! Deletable(db, y, y.parts[j])
  }

  ghost predicate EventAllowed(s: State, e: Event) {
    e.Synced? ==> SyncAllowed(e.sync) && Heeded(s.db, e.sync) && NothingCrosses(s.db, e.sync)
  }

  /** Each key a record lists is in the key space it names, unless something else took it away or it is misplaced. */
  ghost predicate NothingLost(s: State) {
    forall t, k :: t in s.db && k in Listed(s.db, t) && s.db[t].keySpace.Some? && s.db[t].keySpace != Some("") ==>
      Cell(s.db[t].keySpace.value, k) in s.store + s.gone + s.misplaced
  }

  ghost predicate Inv(s: State) {
    GoodLedger(s.db) && NothingLost(s)
  }

  // -- One sync takes away nothing that is still listed -------------------------

  lemma {:induction false} PartForFinds(y: Sync, parts: seq<Part>, i: nat)
    requires i < |parts| && forall a, b :: 0 <= a < b < |parts| ==> parts[a].env != parts[b].env
    ensures PartFor(y, parts, PartTarget(y, parts[i])) == Some(parts[i])
  {
    if i > 0 {
      PartForFinds(y, parts[1..], i - 1);
    }
  }

  lemma {:induction false} PartForIsOne(y: Sync, parts: seq<Part>, t: Target)
    ensures PartFor(y, parts, t).Some? ==>
              exists i :: 0 <= i < |parts| && PartFor(y, parts, t) == Some(parts[i]) && PartTarget(y, parts[i]) == t
    ensures PartFor(y, parts, t).None? ==> forall i :: 0 <= i < |parts| ==> PartTarget(y, parts[i]) != t
  {
    if parts != [] && PartTarget(y, parts[0]) != t {
      PartForIsOne(y, parts[1..], t);
      assert forall i :: 0 < i < |parts| ==> parts[i] == parts[1..][i - 1];
      if PartFor(y, parts, t).Some? {
        var i :| 0 <= i < |parts[1..]| && PartFor(y, parts[1..], t) == Some(parts[1..][i])
            && PartTarget(y, parts[1..][i]) == t;
        assert parts[i + 1] == parts[1..][i];
      }
    }
  }

  /**
   What a target's record says after the sync: as before for the others; for the parts, the keys kept and
   written, in the key space of the sync.
   */
  lemma RecordedAfter(db: Db, y: Sync, t: Target)
    requires SyncAllowed(y) && t in Recording(db, y)
    ensures match PartFor(y, y.parts, t)
            case None => t in db && Recording(db, y)[t] == db[t] && !InSync(y, t)
            case Some(p) => Listed(Recording(db, y), t) == KeptKeys(db, t, p.ws) + WrittenKeys(p.ws)
                            && Recording(db, y)[t].keySpace == Some(Place(y, p))
  {
    PartForIsOne(y, y.parts, t);
    match PartFor(y, y.parts, t)
    case None =>
    case Some(p) =>
      RecordedInventory(Get(db, t), p.ws, PendingAfter(db, y, p), Some(Place(y, p)), y.w.digestOf);
  }

  lemma PartIsRecorded(db: Db, y: Sync, i: nat)
    requires SyncAllowed(y) && i < |y.parts|
    ensures PartTarget(y, y.parts[i]) in Recording(db, y)
    ensures PartFor(y, y.parts, PartTarget(y, y.parts[i])) == Some(y.parts[i])
  {
    PartForFinds(y, y.parts, i);
  }

  lemma KeptKeysWereListed(db: Db, t: Target, ws: seq<Writing>, k: Key)
    requires k in KeptKeys(db, t, ws)
    ensures t in db && k in Listed(db, t)
  {
    var entries := EntriesOf(Get(db, t));
    InventoryMembers(Without(entries, Rewritten(ws)), k);
    WithoutMembers(entries, Rewritten(ws));
    InventoryMembers(entries, k);
  }

  /** A part's own prune leaves the keys its files hold. */
  lemma OwnKeysAreSpared(db: Db, y: Sync, p: Part)
    ensures MineOf(db, y, p) !! KeptKeys(db, PartTarget(y, p), p.ws) + WrittenKeys(p.ws)
  {
  }

  lemma SparedKeyIsNotMine(db: Db, y: Sync, p: Part, t: Target, k: Key)
    requires t in db && k in Listed(db, t) && Spares(y.w, y.cls, y.rule, db, PartTarget(y, p), t)
    ensures k !in MineOf(db, y, p)
  {
    assert t in Spared(y.w, y.cls, y.rule, db, PartTarget(y, p));
  }

  /**
   t's record puts its keys into *space*; or it was made before records said so, and then the rules in force
   do: the sync's own for its datasource, the first one listed for another.
   */
  ghost predicate HeldIn(y: Sync, db: Db, t: Target, space: string) {
    && t in db
    && (db[t].keySpace == Some(space)
        || (db[t].keySpace == None && t.tenant == y.tenant && t.datasource == y.datasource
            && KeySpaceId(y.w, y.cls, y.rule, t.tenant, t.env) == space)
        || (IsLegacy(y.w, y.cls, db, t) && Visible(y.w, y.tenant, t)
            && !(t.tenant == y.tenant && t.datasource == y.datasource)
            && PlacedIn(y.w, y.cls, space, y.w.rules, t)))
  }

  lemma OthersAreSpared(db: Db, y: Sync, p: Part, t: Target, k: Key)
    requires p in y.parts && Place(y, p) != "" && Heeded(db, y)
    requires HeldIn(y, db, t, Place(y, p)) && !InSync(y, t) && k in Listed(db, t)
    ensures k !in MineOf(db, y, p)
  {
    var j :| 0 <= j < |y.parts| && y.parts[j] == p;
    assert t != PartTarget(y, p);
    SparedKeyIsNotMine(db, y, p, t, k);
  }

  lemma SistersAreSpared(db: Db, y: Sync, p: Part, q: Part, k: Key)
    requires Place(y, p) == Place(y, q) && p.env != q.env
    requires PartTarget(y, q) in db && k in Listed(db, PartTarget(y, q))
    ensures k !in MineOf(db, y, p)
  {
    SparedKeyIsNotMine(db, y, p, PartTarget(y, q), k);
  }

  lemma UnplacedPrunesNothing(db: Db, y: Sync, p: Part)
    ensures Place(y, p) == "" ==> MineOf(db, y, p) == {} && Deletable(db, y, p) == {}
  {
    assert Place(y, p) == "" ==> !y.w.prunesKeys(y.cls, y.rule) by {
      assert y.w.prunesKeys(y.cls, y.rule) ==> |Place(y, p)| > 0;
    }
  }

  /** The heart of it: no prune of the sync goes for a key that a record of its key space lists afterwards. */
  lemma PartSparesListed(db: Db, y: Sync, j: nat, t: Target, k: Key)
    requires SyncAllowed(y) && Heeded(db, y) && NothingCrosses(db, y) && j < |y.parts|
    requires HeldIn(y, Recording(db, y), t, Place(y, y.parts[j])) && k in Listed(Recording(db, y), t)
    ensures k !in MineOf(db, y, y.parts[j])
  {
    hide Mine, Deletable, KeptKeys, WrittenKeys, RecordedAll, Place, Listed, Recording;
    var q := y.parts[j];
    RecordedAfter(db, y, t);
    PartForIsOne(y, y.parts, t);
    UnplacedPrunesNothing(db, y, q);
    match PartFor(y, y.parts, t)
    case None =>
      StillListed(db, y, t, k);
      if Place(y, q) != "" {
        OthersAreSpared(db, y, q, t, k);
      }
    case Some(p) =>
      var i :| 0 <= i < |y.parts| && p == y.parts[i] && PartTarget(y, y.parts[i]) == t;
      if i == j {
        OwnKeysAreSpared(db, y, p);
      } else if k in KeptKeys(db, t, p.ws) {
        KeptKeysWereListed(db, t, p.ws, k);
        SistersAreSpared(db, y, q, p, k);
      } else {
        MineIsDeletable(db, y, q);
      }
  }

  lemma StillListed(db: Db, y: Sync, t: Target, k: Key)
    requires t in db && t in Recording(db, y) && Recording(db, y)[t] == db[t] && k in Listed(Recording(db, y), t)
    ensures k in Listed(db, t)
    ensures forall space :: HeldIn(y, Recording(db, y), t, space) ==> HeldIn(y, db, t, space)
  {
  }

  lemma TakesNothingListed(db: Db, y: Sync, t: Target, k: Key)
    requires SyncAllowed(y) && Heeded(db, y) && NothingCrosses(db, y)
    requires t in Recording(db, y) && k in Listed(Recording(db, y), t) && Recording(db, y)[t].keySpace.Some?
    ensures Cell(Recording(db, y)[t].keySpace.value, k) !in Taken(db, y)
  {
    forall j | 0 <= j < |y.parts| && Recording(db, y)[t].keySpace == Some(Place(y, y.parts[j]))
      ensures k !in MineOf(db, y, y.parts[j])
    {
      PartSparesListed(db, y, j, t, k);
    }
  }

  lemma SyncKeepsLedger(db: Db, y: Sync)
    requires GoodLedger(db) && SyncAllowed(y)
    ensures GoodLedger(Recording(db, y))
  {
    forall t | t in Recording(db, y)
      ensures WellFormed(Recording(db, y)[t]) && ValuesKnown(Recording(db, y)[t])
    {
      PartForIsOne(y, y.parts, t);
      match PartFor(y, y.parts, t)
      case None =>
      case Some(p) =>
        RecordedAllStaysGood(Get(db, t), p.ws, PendingAfter(db, y, p), Some(Place(y, p)), y.w.digestOf);
    }
  }

  lemma WrittenCell(y: Sync, i: nat, k: Key)
    requires i < |y.parts| && k in WrittenKeys(y.parts[i].ws)
    ensures Cell(Place(y, y.parts[i]), k) in Written(y)
  {
  }

  lemma StrayCell(db: Db, y: Sync, i: nat, k: Key)
    requires i < |y.parts| && k in KeptKeys(db, PartTarget(y, y.parts[i]), y.parts[i].ws)
    requires PartTarget(y, y.parts[i]) in db && db[PartTarget(y, y.parts[i])].keySpace != Some(Place(y, y.parts[i]))
    ensures Cell(Place(y, y.parts[i]), k) in Strays(db, y)
  {
  }

  /** A key listed after the sync was written by it, kept where it was, or stays behind under a moved rule. */
  lemma ListedComesFrom(db: Db, y: Sync, t: Target, k: Key)
    requires SyncAllowed(y) && t in Recording(db, y) && k in Listed(Recording(db, y), t)
    requires Recording(db, y)[t].keySpace.Some?
    ensures var cell := Cell(Recording(db, y)[t].keySpace.value, k);
            || cell in Written(y)
            || cell in Strays(db, y)
            || (t in db && k in Listed(db, t) && db[t].keySpace == Recording(db, y)[t].keySpace)
  {
    RecordedAfter(db, y, t);
    PartForIsOne(y, y.parts, t);
    match PartFor(y, y.parts, t)
    case None =>
    case Some(p) =>
      var i :| 0 <= i < |y.parts| && p == y.parts[i] && PartTarget(y, y.parts[i]) == t;
      if k in WrittenKeys(p.ws) {
        WrittenCell(y, i, k);
      } else {
        KeptKeysWereListed(db, t, p.ws, k);
        if db[t].keySpace != Some(Place(y, p)) {
          StrayCell(db, y, i, k);
        }
      }
  }

  lemma SyncKeepsInv(s: State, y: Sync)
    requires Inv(s) && SyncAllowed(y) && Heeded(s.db, y) && NothingCrosses(s.db, y)
    ensures Inv(AfterSync(s, y))
  {
    SyncKeepsLedger(s.db, y);
    hide Recording, Written, Taken, Strays, Heeded, NothingCrosses, SyncAllowed, Listed;
    var after := AfterSync(s, y);
    forall t, k | t in after.db && k in Listed(after.db, t) && after.db[t].keySpace.Some?
        && after.db[t].keySpace != Some("")
      ensures Cell(after.db[t].keySpace.value, k) in after.store + after.gone + after.misplaced
    {
      TakesNothingListed(s.db, y, t, k);
      ListedComesFrom(s.db, y, t, k);
    }
  }

  /** A sequence of events, each allowed where it happens, ending in *last*. */
  ghost predicate Runs(first: State, events: seq<Event>, last: State)
    decreases |events|
  {
    if events == [] then last == first
    else EventAllowed(first, events[0]) && Runs(Step(first, events[0]), events[1..], last)
  }

  /**
   Over every run of syncs, failed syncs and outside edits, rule changes in between: each key a latest record
   lists is in the key space it names, was taken by something else, or is misplaced.
   */
  lemma {:induction false} RunKeepsInv(first: State, events: seq<Event>, last: State)
    requires Inv(first) && Runs(first, events, last)
    ensures Inv(last)
    decreases |events|
  {
    if events != [] {
      match events[0] {
        case Synced(y) => SyncKeepsInv(first, y);
        case Outside(store) =>
      }
      RunKeepsInv(Step(first, events[0]), events[1..], last);
    }
  }

  /** Every event of a run at whose moment a prune goes for nothing that the records list after it. */
  ghost predicate EverySyncSpares(first: State, events: seq<Event>)
    decreases |events|
  {
    events == [] ||
    ((events[0].Synced? ==> SparesListed(first.db, events[0].sync))
        && EverySyncSpares(Step(first, events[0]), events[1..]))
  }

  /** Whoever's key it is: recorded in the key space, or without a recorded one and put there by the rules. */
  ghost predicate SparesListed(db: Db, y: Sync) {
    forall t, k, j :: 0 <= j < |y.parts| && HeldIn(y, Recording(db, y), t, Place(y, y.parts[j]))
                      && k in Listed(Recording(db, y), t) ==>
      k !in MineOf(db, y, y.parts[j])
  }

  /** So in every run no prune deletes a key that any latest record lists in the key space it prunes. */
  lemma {:induction false} NoPruneTakesAListedKey(first: State, events: seq<Event>, last: State)
    requires Runs(first, events, last)
    ensures EverySyncSpares(first, events)
    decreases |events|
  {
    if events != [] {
      if events[0].Synced? {
        var y := events[0].sync;
        forall t, k, j | 0 <= j < |y.parts| && HeldIn(y, Recording(first.db, y), t, Place(y, y.parts[j]))
                         && k in Listed(Recording(first.db, y), t)
          ensures k !in MineOf(first.db, y, y.parts[j])
        {
          PartSparesListed(first.db, y, j, t, k);
        }
      }
      NoPruneTakesAListedKey(Step(first, events[0]), events[1..], last);
    }
  }

  /** Environments in distinct key spaces never cross, so one environment per sync is always fine. */
  lemma DistinctSpacesNeverCross(db: Db, y: Sync)
    requires forall i, j :: 0 <= i < j < |y.parts| ==> Place(y, y.parts[i]) != Place(y, y.parts[j])
    ensures NothingCrosses(db, y)
  {
  }

  // -- What a sync writes -------------------------------------------------------

  /** What a sync writes is in the stores afterwards. */
  ghost predicate WritesSurvive(s: State, y: Sync) {
    Written(y) <= AfterSync(s, y).store
  }

  /** The same sync, whatever the sink reads back and however deleting goes. */
  ghost predicate SameFiles(y: Sync, y': Sync) {
    && y' == y.(parts := y'.parts) && |y'.parts| == |y.parts|
    && forall i :: 0 <= i < |y.parts| ==> y'.parts[i].env == y.parts[i].env && y'.parts[i].ws == y.parts[i].ws
  }

  lemma NothingTakenIsWritten(s: State, y: Sync)
    requires NothingCrosses(s.db, y)
    ensures WritesSurvive(s, y)
  {
    assert Written(y) !! Taken(s.db, y);
  }

  /** A key that may be deleted is, when the sink holds it but does not show it. */
  lemma HiddenKeyIsMine(db: Db, y: Sync, p: Part, k: Key)
    requires GoodLedger(db) && k in Deletable(db, y, p) && p.live == Some(map[k := Unreadable])
    ensures k in MineOf(db, y, p)
  {
    var me := PartTarget(y, p);
    var expected := ExpectedValues(y.w, y.cls, y.rule, y.cfg, db, me, p.ws);
    assert me in db;
    assert k in expected && expected[k] == ExpectedOf(db[me], k);
    assert StaleState(y.w, expected[k], Get(p.live.value, k)) == Hidden;
  }

  lemma CrossingLosesAWrite(s: State, y: Sync, i: nat, j: nat, k: Key) returns (y': Sync)
    requires GoodLedger(s.db) && i < |y.parts| && j < |y.parts| && i != j
    requires Place(y, y.parts[i]) == Place(y, y.parts[j])
    requires k in WrittenKeys(y.parts[i].ws) && k in Deletable(s.db, y, y.parts[j])
    ensures SameFiles(y, y') && !WritesSurvive(s, y')
  {
    var q := y.parts[j].(live := Some(map[k := Unreadable]), answer := Deleted(1));
    y' := y.(parts := y.parts[j := q]);
    assert Deletable(s.db, y', q) == Deletable(s.db, y, y.parts[j]);
    HiddenKeyIsMine(s.db, y', q, k);
    assert y'.parts[i] == y.parts[i] && y'.parts[j] == q;
    WrittenCell(y', i, k);
    assert k in Removed(MineOf(s.db, y', y'.parts[j]), y'.parts[j].answer);
    assert Cell(Place(y', y'.parts[j]), k) in Taken(s.db, y');
  }

  /**
   A sync keeps everything it writes, whatever the sink reads back and however its deletes go, exactly when
   no key written to one environment is up for deletion from another in the same key space: each prune looks
   at the other environments' records as they were before the sync, so a key that moves from one
   environment's file to another's can be deleted right after it was written. The condition is about the
   ledger, the rule and the files alone.
   */
  lemma WritesSurviveExactly(s: State, y: Sync)
    requires GoodLedger(s.db)
    ensures (forall y' :: SameFiles(y, y') ==> WritesSurvive(s, y')) <==> NothingCrosses(s.db, y)
  {
    if NothingCrosses(s.db, y) {
      forall y' | SameFiles(y, y') ensures WritesSurvive(s, y') {
        SameFilesCrossAlike(s.db, y, y');
        NothingTakenIsWritten(s, y');
      }
    } else {
      var i, j :| 0 <= i < |y.parts| && 0 <= j < |y.parts| && i != j && Place(y, y.parts[i]) == Place(y, y.parts[j])
                  && !(WrittenKeys(y.parts[i].ws) !! Deletable(s.db, y, y.parts[j]));
      var k :| k in WrittenKeys(y.parts[i].ws) && k in Deletable(s.db, y, y.parts[j]);
      var y' := CrossingLosesAWrite(s, y, i, j, k);
    }
  }

  lemma SameFilesCrossAlike(db: Db, y: Sync, y': Sync)
    requires SameFiles(y, y') && NothingCrosses(db, y)
    ensures NothingCrosses(db, y')
  {
    forall i | 0 <= i < |y.parts|
      ensures Place(y', y'.parts[i]) == Place(y, y.parts[i])
      ensures Deletable(db, y', y'.parts[i]) == Deletable(db, y, y.parts[i])
    {
    }
  }

  // -- A rule that moves a target -----------------------------------------------

  /** Every key a record lists in a key space is there. */
  ghost predicate AllThere(s: State) {
    forall t, k :: t in s.db && k in Listed(s.db, t) && s.db[t].keySpace.Some? ==>
        Cell(s.db[t].keySpace.value, k) in s.store
  }

  /**
   After a sync the records are right about where their keys are exactly when the keys of files it did not
   write again, of a target recorded elsewhere or nowhere before, are in the sync's key space already or
   written to it now. Under a moved rule they are not: the record says they moved, but they stay behind.
   */
  lemma RecordsStayRightExactly(s: State, y: Sync)
    requires AllThere(s) && SyncAllowed(y) && Heeded(s.db, y) && NothingCrosses(s.db, y)
    ensures AllThere(AfterSync(s, y)) <==> Strays(s.db, y) <= s.store + Written(y)
  {
    var after := AfterSync(s, y);
    hide Recording, Written, Taken, Strays, Listed, Heeded, NothingCrosses, SyncAllowed;
    if Strays(s.db, y) <= s.store + Written(y) {
      forall t, k | t in after.db && k in Listed(after.db, t) && after.db[t].keySpace.Some?
        ensures Cell(after.db[t].keySpace.value, k) in after.store
      {
        TakesNothingListed(s.db, y, t, k);
        ListedComesFrom(s.db, y, t, k);
      }
    }
    if AllThere(after) {
      forall cell | cell in Strays(s.db, y) ensures cell in s.store + Written(y) {
        var t := StrayIsListed(s.db, y, cell);
      }
    }
  }

  lemma StrayIsListed(db: Db, y: Sync, cell: Cell) returns (t: Target)
    requires SyncAllowed(y) && cell in Strays(db, y)
    ensures t in Recording(db, y) && cell.key in Listed(Recording(db, y), t)
    ensures Recording(db, y)[t].keySpace == Some(cell.space)
  {
    var i :| 0 <= i < |y.parts| && cell.space == Place(y, y.parts[i])
        && cell.key in KeptKeys(db, PartTarget(y, y.parts[i]), y.parts[i].ws);
    t := PartTarget(y, y.parts[i]);
    PartIsRecorded(db, y, i);
    RecordedAfter(db, y, t);
  }

  // -- While the rules stay as they are -----------------------------------------

  /** One world, and one rule and one sink class for each tenant's datasource. */
  datatype Config = Config(w: World, ruleOf: (string, string) -> Rule, clsOf: string -> string)

  ghost predicate Follows(c: Config, y: Sync) {
    && y.w == c.w && y.cls == c.clsOf(y.datasource) && y.rule == c.ruleOf(y.tenant, y.datasource)
    && y.tenant in c.w.tenants
  }

  function PlaceOf(c: Config, t: Target): string {
    KeySpaceId(c.w, c.clsOf(t.datasource), c.ruleOf(t.tenant, t.datasource), t.tenant, t.env)
  }

  /** Every record says where the rules put its target, or nothing; its tenant is registered. */
  ghost predicate WellPlaced(c: Config, db: Db) {
    forall t :: t in db ==> t.tenant in c.w.tenants && (db[t].keySpace == Some(PlaceOf(c, t)) || db[t].keySpace == None)
  }

  lemma FixedRulesAreHeeded(c: Config, db: Db, y: Sync)
    requires WellPlaced(c, db) && Follows(c, y)
    ensures Heeded(db, y)
  {
  }

  lemma SyncKeepsPlaces(c: Config, db: Db, y: Sync)
    requires WellPlaced(c, db) && Follows(c, y) && SyncAllowed(y)
    ensures WellPlaced(c, Recording(db, y))
  {
    forall t | t in Recording(db, y)
      ensures t.tenant in c.w.tenants
      ensures Recording(db, y)[t].keySpace == Some(PlaceOf(c, t)) || Recording(db, y)[t].keySpace == None
    {
      RecordedAfter(db, y, t);
      PartForIsOne(y, y.parts, t);
    }
  }

  ghost predicate FixedRuns(c: Config, first: State, events: seq<Event>, last: State)
    decreases |events|
  {
    if events == [] then last == first
    else
      && (events[0].Synced? ==> var y := events[0].sync; SyncAllowed(y) && Follows(c, y) && NothingCrosses(first.db, y))
      && FixedRuns(c, Step(first, events[0]), events[1..], last)
  }

  /** While the rules stay as they are, the prunes always notice every other target. */
  lemma {:induction false} FixedRunsAreRuns(c: Config, first: State, events: seq<Event>, last: State)
    requires WellPlaced(c, first.db) && FixedRuns(c, first, events, last)
    ensures Runs(first, events, last) && WellPlaced(c, last.db)
    decreases |events|
  {
    if events != [] {
      if events[0].Synced? {
        FixedRulesAreHeeded(c, first.db, events[0].sync);
        SyncKeepsPlaces(c, first.db, events[0].sync);
      }
      FixedRunsAreRuns(c, Step(first, events[0]), events[1..], last);
    }
  }
}
