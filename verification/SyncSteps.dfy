/**
 Syncs step by step, any number at once. A sync holds the locks of its environments while it writes and
 prunes, but its files are recorded only after it has given them up: a prune can run while what another sync
 wrote is in no record yet.
 */
module SyncSteps {
  import opened Options
  import opened Settings
  import opened Ledger
  import opened KeySpaces
  import opened Prune
  import opened PruneSafety
  import opened SyncHistory

  /** How far one environment of a sync is: the ledger its prune saw, once it ran, and the files recorded. */
  datatype Progress = Progress(seen: Option<Db>, recorded: nat)

  /** A sync under way: the keys written so far, and each environment's progress. */
  datatype Flight = Flight(y: Sync, locked: bool, written: set<Cell>, parts: seq<Progress>)

  datatype Steps = Steps(db: Db, store: set<Cell>, gone: set<Cell>, misplaced: set<Cell>, flights: map<nat, Flight>)

  datatype Event =
    | Begin(id: nat, y: Sync)
    | Write(id: nat, cell: Cell)
    | PruneEnv(id: nat, part: nat)
    | Unlock(id: nat)
    | RecordFile(id: nat, part: nat)
    | Outside(store: set<Cell>)

  ghost predicate GoodFlight(f: Flight) {
    && |f.parts| == |f.y.parts|
    && (forall i :: 0 <= i < |f.parts| ==> f.parts[i].recorded <= |f.y.parts[i].ws|)
    && (forall i :: 0 <= i < |f.parts| && f.parts[i].seen.None? ==> f.parts[i].recorded == 0)
    && (forall i :: 0 <= i < |f.parts| && f.parts[i].seen.Some? ==> Written(f.y) <= f.written)
  }

  predicate SharesTarget(y: Sync, z: Sync) {
    exists i :: 0 <= i < |y.parts| && InSync(z, PartTarget(y, y.parts[i]))
  }

  /** Everything is written, and the environment is not pruned yet. */
  predicate CanPrune(s: Steps, id: nat, i: nat) {
    && id in s.flights && s.flights[id].locked
    && i < |s.flights[id].parts| && i < |s.flights[id].y.parts|
    && s.flights[id].parts[i].seen.None?
    && Written(s.flights[id].y) <= s.flights[id].written
  }

  /** The locks are given up, and a file of the environment is still to be recorded. */
  predicate CanRecord(s: Steps, id: nat, i: nat) {
    && id in s.flights && !s.flights[id].locked
    && i < |s.flights[id].parts| && i < |s.flights[id].y.parts|
    && s.flights[id].parts[i].seen.Some?
    && s.flights[id].parts[i].recorded < |s.flights[id].y.parts[i].ws|
  }

  /** What the locks and the order of a sync's own steps allow. */
  ghost predicate Legal(s: Steps, e: Event) {
    match e
    case Begin(id, y) =>
      id !in s.flights && SyncAllowed(y)
      && forall other :: other in s.flights && s.flights[other].locked ==> !SharesTarget(y, s.flights[other].y)
    case Write(id, cell) => id in s.flights && s.flights[id].locked && cell in Written(s.flights[id].y)
    case PruneEnv(id, i) => CanPrune(s, id, i)
    case Unlock(id) =>
      id in s.flights && forall i :: 0 <= i < |s.flights[id].parts| ==> s.flights[id].parts[i].seen.Some?
    case RecordFile(id, i) => CanRecord(s, id, i)
    case Outside(_) => true
  }

  function WithPart(f: Flight, i: nat, p: Progress): Flight
    requires i < |f.parts|
  {
    f.(parts := f.parts[i := p])
  }

  function TakenBy(db: Db, y: Sync, p: Part): set<Cell> {
    set k | k in Removed(MineOf(db, y, p), p.answer) :: Cell(Place(y, p), k)
  }

  /** The files of a part not recorded yet, and the inventory names their records will replace. */
  function Unrecorded(p: Part, g: Progress): seq<Writing>
    requires g.recorded <= |p.ws|
  {
    p.ws[g.recorded..]
  }

  /** Keys that stay listed under a key space their target was not recorded in. */
  function LeftBehind(db: Db, y: Sync, p: Part, ws: seq<Writing>): set<Cell> {
    var t := PartTarget(y, p);
    if t in db && db[t].keySpace != Some(Place(y, p))
    then set k | k in KeptKeys(db, t, ws) :: Cell(Place(y, p), k)
    else {}
  }

  function RecordOne(db: Db, y: Sync, p: Part, g: Progress): Record
    requires g.seen.Some? && g.recorded < |p.ws|
  {
    Recorded(Get(db, PartTarget(y, p)), p.ws[g.recorded], PendingAfter(g.seen.value, y, p), Some(Place(y, p)),
             y.w.digestOf)
  }

  function OneMoreRecorded(f: Flight, i: nat): Flight
    requires i < |f.parts|
  {
    WithPart(f, i, f.parts[i].(recorded := f.parts[i].recorded + 1))
  }

  function AfterPrune(s: Steps, id: nat, i: nat): Steps
    requires CanPrune(s, id, i)
  {
    var f := s.flights[id];
    s.(store := s.store - TakenBy(s.db, f.y, f.y.parts[i]),
       flights := s.flights[id := WithPart(f, i, Progress(Some(s.db), 0))])
  }

  function AfterRecord(s: Steps, id: nat, i: nat): Steps
    requires CanRecord(s, id, i)
  {
    var f := s.flights[id];
    var p, g := f.y.parts[i], f.parts[i];
    s.(db := s.db[PartTarget(f.y, p) := RecordOne(s.db, f.y, p, g)],
       misplaced := s.misplaced + LeftBehind(s.db, f.y, p, Unrecorded(p, g)),
       flights := s.flights[id := OneMoreRecorded(f, i)])
  }

  ghost function Do(s: Steps, e: Event): Steps
    requires Legal(s, e)
  {
    match e
    case Begin(id, y) =>
      s.(flights := s.flights[id := Flight(y, true, {}, seq(|y.parts|, _ => Progress(None, 0)))])
    case Write(id, cell) =>
      var f := s.flights[id];
      s.(store := s.store + {cell}, gone := s.gone - {cell}, misplaced := s.misplaced - {cell},
         flights := s.flights[id := f.(written := f.written + {cell})])
    case PruneEnv(id, i) => AfterPrune(s, id, i)
    case Unlock(id) => s.(flights := s.flights[id := s.flights[id].(locked := false)])
    case RecordFile(id, i) => AfterRecord(s, id, i)
    case Outside(store) => s.(store := store, gone := s.gone + (s.store - store))
  }

  // -- What holds at every step -------------------------------------------------

  /** File n of the part is written with k in it, and not recorded yet. */
  predicate Open(f: Flight, i: nat, n: nat, k: Key)
    requires i < |f.y.parts| && i < |f.parts|
  {
    f.parts[i].recorded <= n < |f.y.parts[i].ws| && k in f.y.parts[i].ws[n].flat
        && Cell(Place(f.y, f.y.parts[i]), k) in f.written
  }

  ghost predicate FlightsAreGood(s: Steps) {
    forall id :: id in s.flights ==> GoodFlight(s.flights[id]) && SyncAllowed(s.flights[id].y)
  }

  predicate There(s: Steps, cell: Cell) {
    cell in s.store || cell in s.gone || cell in s.misplaced
  }

  /** What an unrecorded file wrote is there, unless something else took it away. */
  ghost predicate WritesAreThere(s: Steps) {
    forall id, i, n, k :: id in s.flights && 0 <= i < |s.flights[id].parts| && i < |s.flights[id].y.parts|
                          && Open(s.flights[id], i, n, k) ==>
      There(s, Cell(Place(s.flights[id].y, s.flights[id].y.parts[i]), k))
  }

  /** An entry of t's inventory that a sync under way, having pruned by it, is about to replace. */
  ghost predicate Replaced(s: Steps, t: Target, name: string) {
    exists id, i :: id in s.flights && 0 <= i < |s.flights[id].parts| && i < |s.flights[id].y.parts|
                    && IsReplaced(s.flights[id], i, t, name)
  }

  predicate IsReplaced(f: Flight, i: nat, t: Target, name: string)
    requires i < |f.parts| && i < |f.y.parts|
  {
    PartTarget(f.y, f.y.parts[i]) == t && f.parts[i].seen.Some? && f.parts[i].recorded <= |f.y.parts[i].ws|
    && name in Rewritten(Unrecorded(f.y.parts[i], f.parts[i]))
  }

  /** A key listed by an entry is there, unless the entry is about to be replaced. */
  ghost predicate EntriesAreThere(s: Steps) {
    forall t, e, k :: t in s.db && e in EntriesOf(Some(s.db[t])) && k in e.entry.desired
                      && s.db[t].keySpace.Some? && s.db[t].keySpace != Some("") ==>
      There(s, Cell(s.db[t].keySpace.value, k)) || Replaced(s, t, e.name)
  }

  ghost predicate Inv(s: Steps) {
    GoodLedger(s.db) && FlightsAreGood(s) && WritesAreThere(s) && EntriesAreThere(s)
  }

  // -- When a prune is safe -----------------------------------------------------

  /** The prune notices every other target whose record lists keys where it prunes. */
  ghost predicate NoticesAll(db: Db, y: Sync, p: Part) {
    forall t :: t in db && t != PartTarget(y, p) && Place(y, p) != "" && db[t].keySpace == Some(Place(y, p)) ==>
      Notices(y.w, y.cls, y.rule, PartTarget(y, p), t)
  }

  /** Nothing that another sync, or another environment of this one, has written and not recorded is up for deletion. */
  ghost predicate NothingOpen(s: Steps, id: nat, i: nat)
    requires id in s.flights && i < |s.flights[id].y.parts|
  {
    forall z, j, n, k ::
      z in s.flights && 0 <= j < |s.flights[z].parts| && j < |s.flights[z].y.parts| && (z, j) != (id, i)
      && Open(s.flights[z], j, n, k)
      && Place(s.flights[z].y, s.flights[z].y.parts[j]) == Place(s.flights[id].y, s.flights[id].y.parts[i]) ==>
      k !in Deletable(s.db, s.flights[id].y, s.flights[id].y.parts[i])
  }

  ghost predicate GuardedPrune(s: Steps, id: nat, i: nat) {
    && CanPrune(s, id, i)
    && NoticesAll(s.db, s.flights[id].y, s.flights[id].y.parts[i])
    && NothingOpen(s, id, i)
  }

  ghost predicate Guarded(s: Steps, e: Event) {
    && Legal(s, e)
    && (e.PruneEnv? ==> GuardedPrune(s, e.id, e.part))
  }

  // -- Every step keeps it ------------------------------------------------------

  /** The step keeps the ledger and takes nothing away, and what was about to be replaced still is. */
  ghost predicate Gentle(s: Steps, s': Steps) {
    && s'.db == s.db
    && (forall cell :: There(s, cell) ==> There(s', cell))
    && (forall z :: z in s.flights ==>
          z in s'.flights && s'.flights[z].y == s.flights[z].y && s'.flights[z].parts == s.flights[z].parts)
  }

  lemma GentleKeepsEntries(s: Steps, s': Steps)
    requires EntriesAreThere(s) && Gentle(s, s')
    ensures EntriesAreThere(s')
  {
    forall t, name | Replaced(s, t, name) ensures Replaced(s', t, name) {
      var z, i :| z in s.flights && 0 <= i < |s.flights[z].parts| && i < |s.flights[z].y.parts|
          && IsReplaced(s.flights[z], i, t, name);
      assert IsReplaced(s'.flights[z], i, t, name);
    }
  }

  lemma WritesStayThere(s: Steps, s': Steps, id: nat, f: Flight)
    requires WritesAreThere(s) && s'.flights == s.flights[id := f] && forall cell :: There(s, cell) ==> There(s', cell)
    requires forall i, n, k :: 0 <= i < |f.parts| && i < |f.y.parts| && Open(f, i, n, k) ==>
               There(s', Cell(Place(f.y, f.y.parts[i]), k))
    ensures WritesAreThere(s')
  {
    hide There, Open;
    forall z, i, n, k | z in s'.flights && 0 <= i < |s'.flights[z].parts| && i < |s'.flights[z].y.parts|
        && Open(s'.flights[z], i, n, k)
      ensures There(s', Cell(Place(s'.flights[z].y, s'.flights[z].y.parts[i]), k))
    {
      if z != id {
        assert Open(s.flights[z], i, n, k);
      }
    }
  }

  lemma BeginKeepsWrites(s: Steps, id: nat, y: Sync)
    requires Inv(s) && Legal(s, Begin(id, y))
    ensures WritesAreThere(Do(s, Begin(id, y)))
  {
    var s' := Do(s, Begin(id, y));
    WritesStayThere(s, s', id, s'.flights[id]);
  }

  lemma WriteKeepsWrites(s: Steps, id: nat, cell: Cell)
    requires Inv(s) && Legal(s, Write(id, cell))
    ensures WritesAreThere(Do(s, Write(id, cell)))
  {
    var s', f := Do(s, Write(id, cell)), s.flights[id];
    var f' := f.(written := f.written + {cell});
    forall i, n, k | 0 <= i < |f'.parts| && i < |f'.y.parts| && Open(f', i, n, k)
      ensures There(s', Cell(Place(f'.y, f'.y.parts[i]), k))
    {
      if Cell(Place(f.y, f.y.parts[i]), k) != cell {
        assert Open(f, i, n, k);
      }
    }
    WritesStayThere(s, s', id, f');
  }

  lemma UnlockKeepsWrites(s: Steps, id: nat)
    requires Inv(s) && Legal(s, Unlock(id))
    ensures WritesAreThere(Do(s, Unlock(id)))
  {
    var s', f := Do(s, Unlock(id)), s.flights[id];
    var f' := f.(locked := false);
    forall i, n, k | 0 <= i < |f'.parts| && i < |f'.y.parts| && Open(f', i, n, k)
      ensures There(s', Cell(Place(f'.y, f'.y.parts[i]), k))
    {
      assert Open(f, i, n, k);
    }
    WritesStayThere(s, s', id, f');
  }

  lemma OutsideKeepsWrites(s: Steps, store: set<Cell>)
    requires Inv(s)
    ensures WritesAreThere(Do(s, Event.Outside(store)))
  {
    var s' := Do(s, Event.Outside(store));
    assert s'.flights == s.flights && forall cell :: There(s, cell) ==> There(s', cell);
  }

  lemma GentleSteps(s: Steps, e: Event)
    requires Inv(s) && Legal(s, e) && !e.PruneEnv? && !e.RecordFile?
    ensures Inv(Do(s, e))
  {
    LegalKeepsFlights(s, e);
    StepIsGentle(s, e);
    GentleKeepsEntries(s, Do(s, e));
    if e.Begin? {
      BeginKeepsWrites(s, e.id, e.y);
    } else if e.Write? {
      WriteKeepsWrites(s, e.id, e.cell);
    } else if e.Unlock? {
      UnlockKeepsWrites(s, e.id);
    } else {
      OutsideKeepsWrites(s, e.store);
    }
    assert Do(s, e).db == s.db;
    hide *;
  }

  lemma StepIsGentle(s: Steps, e: Event)
    requires Legal(s, e) && !e.PruneEnv? && !e.RecordFile?
    ensures Gentle(s, Do(s, e))
  {
  }

  /** What a guarded prune takes is listed by its own target only, in entries it is about to replace. */
  lemma TakenIsReplaced(s: Steps, id: nat, i: nat, t: Target, e: NamedEntry, k: Key)
    requires Inv(s) && GuardedPrune(s, id, i)
    requires t in s.db && e in EntriesOf(Some(s.db[t])) && k in e.entry.desired
    requires s.db[t].keySpace.Some? && s.db[t].keySpace != Some("")
    requires Cell(s.db[t].keySpace.value, k) in TakenBy(s.db, s.flights[id].y, s.flights[id].y.parts[i])
    ensures t == PartTarget(s.flights[id].y, s.flights[id].y.parts[i])
    ensures e.name in Rewritten(s.flights[id].y.parts[i].ws)
  {
    var y, p := s.flights[id].y, s.flights[id].y.parts[i];
    InventoryMembers(EntriesOf(Some(s.db[t])), k);
    if t != PartTarget(y, p) {
      SparedKeyIsNotMine(s.db, y, p, t, k);
    } else {
      OwnKeysAreSpared(s.db, y, p);
      WithoutMembers(EntriesOf(Get(s.db, t)), Rewritten(p.ws));
      InventoryMembers(Without(EntriesOf(Get(s.db, t)), Rewritten(p.ws)), k);
    }
  }

  lemma TakenIsNotOpen(s: Steps, id: nat, i: nat, z: nat, j: nat, n: nat, k: Key)
    requires Inv(s) && GuardedPrune(s, id, i) && z in s.flights && j < |s.flights[z].parts|
    requires j < |s.flights[z].y.parts|
    requires Open(s.flights[z], j, n, k)
    ensures Cell(Place(s.flights[z].y, s.flights[z].y.parts[j]), k) !in TakenBy(s.db, s.flights[id].y,
                                                                                s.flights[id].y.parts[i])
  {
    var y, p := s.flights[id].y, s.flights[id].y.parts[i];
    if (z, j) == (id, i) {
      OwnKeysAreSpared(s.db, y, p);
      assert k in WrittenKeys(p.ws);
    } else {
      MineIsDeletable(s.db, y, p);
    }
  }

  lemma PruneKeepsEntries(s: Steps, id: nat, i: nat, t: Target, e: NamedEntry, k: Key)
    requires Inv(s) && GuardedPrune(s, id, i)
    requires t in s.db && e in EntriesOf(Some(s.db[t])) && k in e.entry.desired
    requires s.db[t].keySpace.Some? && s.db[t].keySpace != Some("")
    ensures var s' := AfterPrune(s, id, i);
            There(s', Cell(s.db[t].keySpace.value, k)) || Replaced(s', t, e.name)
  {
    var s' := AfterPrune(s, id, i);
    var y, p := s.flights[id].y, s.flights[id].y.parts[i];
    if Cell(s.db[t].keySpace.value, k) in TakenBy(s.db, y, p) {
      TakenIsReplaced(s, id, i, t, e, k);
      assert p.ws[0..] == p.ws;
      assert IsReplaced(s'.flights[id], i, t, e.name);
    } else if Replaced(s, t, e.name) {
      StillReplaced(s, id, i, t, e.name);
    }
  }

  lemma PruneKeepsWrites(s: Steps, id: nat, i: nat)
    requires Inv(s) && GuardedPrune(s, id, i)
    ensures WritesAreThere(AfterPrune(s, id, i))
  {
    var s' := AfterPrune(s, id, i);
    assert GoodFlight(s.flights[id]);
    hide SyncAllowed, GoodFlight, EntriesAreThere, NothingOpen, NoticesAll, TakenBy;
    forall z, j, n, k | z in s'.flights && 0 <= j < |s'.flights[z].parts| && j < |s'.flights[z].y.parts|
        && Open(s'.flights[z], j, n, k)
      ensures There(s', Cell(Place(s'.flights[z].y, s'.flights[z].y.parts[j]), k))
    {
      assert Open(s.flights[z], j, n, k);
      TakenIsNotOpen(s, id, i, z, j, n, k);
    }
  }

  lemma PruneKeepsInv(s: Steps, id: nat, i: nat)
    requires Inv(s) && GuardedPrune(s, id, i)
    ensures Inv(AfterPrune(s, id, i))
  {
    var s' := AfterPrune(s, id, i);
    LegalKeepsFlights(s, PruneEnv(id, i));
    PruneKeepsWrites(s, id, i);
    forall t, e, k | t in s'.db && e in EntriesOf(Some(s'.db[t])) && k in e.entry.desired
                     && s'.db[t].keySpace.Some? && s'.db[t].keySpace != Some("")
      ensures There(s', Cell(s'.db[t].keySpace.value, k)) || Replaced(s', t, e.name)
    {
      PruneKeepsEntries(s, id, i, t, e, k);
    }
    hide There, Replaced, FlightsAreGood, WritesAreThere, GoodLedger, TakenBy;
  }

  lemma StillReplaced(s: Steps, id: nat, i: nat, t: Target, name: string)
    requires CanPrune(s, id, i) && Replaced(s, t, name)
    ensures Replaced(AfterPrune(s, id, i), t, name)
  {
    ReplacedAfterStart(s, AfterPrune(s, id, i), id, i, t, name);
  }

  lemma ReplacedAfterStart(s: Steps, s': Steps, id: nat, i: nat, t: Target, name: string)
    requires id in s.flights && i < |s.flights[id].parts| && s.flights[id].parts[i].seen.None? && Replaced(s, t, name)
    requires s'.flights == s.flights[id := WithPart(s.flights[id], i, Progress(Some(s.db), 0))]
    ensures Replaced(s', t, name)
  {
    hide Rewritten, Unrecorded;
    var z, j :| z in s.flights && 0 <= j < |s.flights[z].parts| && j < |s.flights[z].y.parts|
        && IsReplaced(s.flights[z], j, t, name);
    assert (z, j) != (id, i);
    assert s'.flights[z].y == s.flights[z].y && s'.flights[z].parts[j] == s.flights[z].parts[j];
    assert IsReplaced(s'.flights[z], j, t, name);
  }

  lemma OneFewerToRecord(ws: seq<Writing>, n: nat, name: string)
    requires n < |ws| && name in Rewritten(ws[n..]) && name !in {ws[n].path, ws[n].name}
    ensures name in Rewritten(ws[n + 1..])
  {
    var m :| 0 <= m < |ws[n..]| && (ws[n..][m].name == name || ws[n..][m].path == name);
    assert m > 0 && ws[n + 1..][m - 1] == ws[n..][m];
  }

  lemma PartAfterRecord(f: Flight, i: nat, t: Target, name: string)
    requires GoodFlight(f) && i < |f.parts| && f.parts[i].recorded < |f.y.parts[i].ws| && IsReplaced(f, i, t, name)
    requires var w := f.y.parts[i].ws[f.parts[i].recorded]; name !in {w.path, w.name}
    ensures IsReplaced(OneMoreRecorded(f, i), i, t, name)
  {
    OneFewerToRecord(f.y.parts[i].ws, f.parts[i].recorded, name);
  }

  lemma ReplacedAfterOneMore(s: Steps, s': Steps, id: nat, i: nat, t: Target, name: string)
    requires id in s.flights && GoodFlight(s.flights[id]) && i < |s.flights[id].parts|
    requires s.flights[id].parts[i].recorded < |s.flights[id].y.parts[i].ws|
    requires s'.flights == s.flights[id := OneMoreRecorded(s.flights[id], i)]
    requires Replaced(s, t, name)
    requires var f := s.flights[id];
             var w := f.y.parts[i].ws[f.parts[i].recorded];
             t == PartTarget(f.y, f.y.parts[i]) ==> name !in {w.path, w.name}
    ensures Replaced(s', t, name)
  {
    var z, j :| z in s.flights && 0 <= j < |s.flights[z].parts| && j < |s.flights[z].y.parts|
        && IsReplaced(s.flights[z], j, t, name);
    if (z, j) == (id, i) {
      PartAfterRecord(s.flights[id], i, t, name);
    }
    assert IsReplaced(s'.flights[z], j, t, name);
  }

  /** Recording one file replaces what it names; everything else about to be replaced still is. */
  lemma ReplacedAfterRecord(s: Steps, id: nat, i: nat, t: Target, name: string)
    requires Inv(s) && CanRecord(s, id, i) && Replaced(s, t, name)
    requires var f := s.flights[id];
             var w := f.y.parts[i].ws[f.parts[i].recorded];
             t == PartTarget(f.y, f.y.parts[i]) ==> name !in {w.path, w.name}
    ensures Replaced(AfterRecord(s, id, i), t, name)
  {
    ReplacedAfterOneMore(s, AfterRecord(s, id, i), id, i, t, name);
  }

  lemma NewEntryIsThere(s: Steps, id: nat, i: nat, k: Key)
    requires Inv(s) && CanRecord(s, id, i)
    requires k in s.flights[id].y.parts[i].ws[s.flights[id].parts[i].recorded].flat
    ensures There(s, Cell(Place(s.flights[id].y, s.flights[id].y.parts[i]), k))
  {
    var f := s.flights[id];
    assert GoodFlight(f);
    assert k in WrittenKeys(f.y.parts[i].ws);
    WrittenCell(f.y, i, k);
    assert Open(f, i, f.parts[i].recorded, k);
  }

  /**
   An entry a recording leaves in place: about to be replaced, or listed where the target was recorded, or
   left behind.
   */
  lemma OldEntryIsThere(s: Steps, id: nat, i: nat, e: NamedEntry, k: Key)
    requires Inv(s) && CanRecord(s, id, i)
    requires var f := s.flights[id];
             var t, w := PartTarget(f.y, f.y.parts[i]), f.y.parts[i].ws[f.parts[i].recorded];
             t in s.db && e in EntriesOf(Some(s.db[t])) && e.name !in {w.path, w.name} && k in e.entry.desired
    requires Place(s.flights[id].y, s.flights[id].y.parts[i]) != ""
    ensures var s', f := AfterRecord(s, id, i), s.flights[id];
            There(s', Cell(Place(f.y, f.y.parts[i]), k)) || Replaced(s', PartTarget(f.y, f.y.parts[i]), e.name)
  {
    var s', f := AfterRecord(s, id, i), s.flights[id];
    var p, g := f.y.parts[i], f.parts[i];
    var t := PartTarget(f.y, p);
    if e.name in Rewritten(Unrecorded(p, g)) {
      assert IsReplaced(f, i, t, e.name);
      ReplacedAfterRecord(s, id, i, t, e.name);
    } else if s.db[t].keySpace != Some(Place(f.y, p)) {
      IsLeftBehind(s.db, f.y, p, Unrecorded(p, g), e, k);
      assert There(s', Cell(Place(f.y, p), k)) by {
        hide LeftBehind;
      }
    } else {
      ListedOrReplaced(s, t, e, k);
      if Replaced(s, t, e.name) {
        ReplacedAfterRecord(s, id, i, t, e.name);
      }
    }
    hide *;
  }

  lemma ListedOrReplaced(s: Steps, t: Target, e: NamedEntry, k: Key)
    requires Inv(s) && t in s.db && e in EntriesOf(Some(s.db[t])) && k in e.entry.desired
    requires s.db[t].keySpace.Some? && s.db[t].keySpace != Some("")
    ensures There(s, Cell(s.db[t].keySpace.value, k)) || Replaced(s, t, e.name)
  {
  }

  lemma IsLeftBehind(db: Db, y: Sync, p: Part, ws: seq<Writing>, e: NamedEntry, k: Key)
    requires PartTarget(y, p) in db && db[PartTarget(y, p)].keySpace != Some(Place(y, p))
    requires e in EntriesOf(Get(db, PartTarget(y, p))) && e.name !in Rewritten(ws) && k in e.entry.desired
    ensures Cell(Place(y, p), k) in LeftBehind(db, y, p, ws)
  {
    var entries := EntriesOf(Get(db, PartTarget(y, p)));
    WithoutMembers(entries, Rewritten(ws));
    InventoryMembers(Without(entries, Rewritten(ws)), k);
  }

  lemma RecordKeepsEntries(s: Steps, id: nat, i: nat, t: Target, e: NamedEntry, k: Key)
    requires Inv(s) && CanRecord(s, id, i)
    requires var s' := AfterRecord(s, id, i);
             t in s'.db && e in EntriesOf(Some(s'.db[t])) && k in e.entry.desired
             && s'.db[t].keySpace.Some? && s'.db[t].keySpace != Some("")
    ensures var s' := AfterRecord(s, id, i);
            There(s', Cell(s'.db[t].keySpace.value, k)) || Replaced(s', t, e.name)
  {
    var s', f := AfterRecord(s, id, i), s.flights[id];
    var p, g := f.y.parts[i], f.parts[i];
    var me, w := PartTarget(f.y, p), p.ws[g.recorded];
    if t != me {
      OtherEntryIsThere(s, id, i, t, e, k);
    } else {
      RecordedEntry(Get(s.db, me), w, PendingAfter(g.seen.value, f.y, p), Some(Place(f.y, p)), f.y.w.digestOf, e);
      assert s'.db[t].keySpace == Some(Place(f.y, p));
      if e == NamedEntry(w.name, EntryOf(w, f.y.w.digestOf)) {
        NewEntryIsThere(s, id, i, k);
      } else {
        OldEntryIsThere(s, id, i, e, k);
      }
    }
  }

  lemma OtherEntryIsThere(s: Steps, id: nat, i: nat, t: Target, e: NamedEntry, k: Key)
    requires Inv(s) && CanRecord(s, id, i) && t != PartTarget(s.flights[id].y, s.flights[id].y.parts[i])
    requires t in s.db && e in EntriesOf(Some(s.db[t])) && k in e.entry.desired
    requires s.db[t].keySpace.Some? && s.db[t].keySpace != Some("")
    ensures var s' := AfterRecord(s, id, i);
            There(s', Cell(s.db[t].keySpace.value, k)) || Replaced(s', t, e.name)
  {
    if Replaced(s, t, e.name) {
      ReplacedAfterRecord(s, id, i, t, e.name);
    }
  }

  lemma RecordKeepsInv(s: Steps, id: nat, i: nat)
    requires Inv(s) && CanRecord(s, id, i)
    ensures Inv(AfterRecord(s, id, i))
  {
    var s' := AfterRecord(s, id, i);
    RecordKeepsLedger(s, id, i);
    RecordKeepsFlights(s, id, i);
    forall t, e, k | t in s'.db && e in EntriesOf(Some(s'.db[t])) && k in e.entry.desired
                     && s'.db[t].keySpace.Some? && s'.db[t].keySpace != Some("")
      ensures There(s', Cell(s'.db[t].keySpace.value, k)) || Replaced(s', t, e.name)
    {
      RecordKeepsEntries(s, id, i, t, e, k);
    }
    hide Do, There, Replaced;
  }

  lemma RecordKeepsFlights(s: Steps, id: nat, i: nat)
    requires Inv(s) && CanRecord(s, id, i)
    ensures FlightsAreGood(AfterRecord(s, id, i)) && WritesAreThere(AfterRecord(s, id, i))
  {
    OneMoreKeepsFlights(s, AfterRecord(s, id, i), id, i);
  }

  lemma OneMoreKeepsFlights(s: Steps, s': Steps, id: nat, i: nat)
    requires FlightsAreGood(s) && WritesAreThere(s) && id in s.flights && i < |s.flights[id].parts|
    requires i < |s.flights[id].y.parts|
    requires s.flights[id].parts[i].recorded < |s.flights[id].y.parts[i].ws| && s.flights[id].parts[i].seen.Some?
    requires s'.flights == s.flights[id := OneMoreRecorded(s.flights[id], i)]
    requires forall cell :: There(s, cell) ==> There(s', cell)
    ensures FlightsAreGood(s') && WritesAreThere(s')
  {
    assert GoodFlight(s.flights[id]);
    OneMoreIsGood(s.flights[id], i);
    hide GoodFlight, There, SyncAllowed;
    forall z, j, n, k | z in s'.flights && 0 <= j < |s'.flights[z].parts| && j < |s'.flights[z].y.parts|
        && Open(s'.flights[z], j, n, k)
      ensures There(s', Cell(Place(s'.flights[z].y, s'.flights[z].y.parts[j]), k))
    {
      assert Open(s.flights[z], j, n, k);
    }
  }

  lemma OneMoreIsGood(f: Flight, i: nat)
    requires GoodFlight(f) && i < |f.parts| && f.parts[i].seen.Some? && f.parts[i].recorded < |f.y.parts[i].ws|
    ensures GoodFlight(OneMoreRecorded(f, i))
  {
  }

  lemma RecordKeepsLedger(s: Steps, id: nat, i: nat)
    requires Inv(s) && CanRecord(s, id, i)
    ensures GoodLedger(AfterRecord(s, id, i).db)
  {
    var f := s.flights[id];
    assert GoodFlight(f);
    var p, g := f.y.parts[i], f.parts[i];
    var prev := Get(s.db, PartTarget(f.y, p));
    RecordedIsWellFormed(prev, p.ws[g.recorded], PendingAfter(g.seen.value, f.y, p), Some(Place(f.y, p)),
                         f.y.w.digestOf);
    RecordedKnowsValues(prev, p.ws[g.recorded], PendingAfter(g.seen.value, f.y, p), Some(Place(f.y, p)),
                        f.y.w.digestOf);
  }

  // -- Every interleaving -------------------------------------------------------

  lemma StepKeepsInv(s: Steps, e: Event)
    requires Inv(s) && Guarded(s, e)
    ensures Inv(Do(s, e))
  {
    if e.PruneEnv? {
      PruneKeepsInv(s, e.id, e.part);
    } else if e.RecordFile? {
      RecordKeepsInv(s, e.id, e.part);
    } else {
      GentleSteps(s, e);
    }
    hide Inv, AfterPrune, AfterRecord, GuardedPrune, CanPrune, CanRecord;
  }

  ghost predicate Runs(first: Steps, events: seq<Event>, last: Steps)
    requires Inv(first)
    decreases |events|
  {
    if events == [] then last == first
    else
      Guarded(first, events[0])
      && (StepKeepsInv(first, events[0]); Runs(Do(first, events[0]), events[1..], last))
  }

  /** Nothing is under way that still has files to record. */
  ghost predicate Settled(s: Steps) {
    forall id, i :: id in s.flights && 0 <= i < |s.flights[id].parts| && i < |s.flights[id].y.parts| ==>
      s.flights[id].parts[i].recorded == |s.flights[id].y.parts[i].ws|
  }

  /** Each key a record lists is in the key space it names, was taken by something else, or is misplaced. */
  ghost predicate ListedIsThere(s: Steps) {
    forall t, k :: t in s.db && k in Listed(s.db, t) && s.db[t].keySpace.Some? && s.db[t].keySpace != Some("") ==>
      There(s, Cell(s.db[t].keySpace.value, k))
  }

  /**
   However the steps of any number of syncs interleave: when every file written is recorded, no key a record
   lists has been pruned, if each prune noticed the other targets and found nothing open up for deletion.
   */
  lemma {:induction false} InterleavingsKeepListed(first: Steps, events: seq<Event>, last: Steps)
    requires Inv(first) && Runs(first, events, last)
    ensures Inv(last) && (Settled(last) ==> ListedIsThere(last))
    decreases |events|
  {
    if events == [] {
      if Settled(last) {
        SettledIsThere(last);
      }
    } else {
      StepKeepsInv(first, events[0]);
      InterleavingsKeepListed(Do(first, events[0]), events[1..], last);
    }
  }

  lemma SettledIsThere(s: Steps)
    requires Inv(s) && Settled(s)
    ensures ListedIsThere(s)
  {
    forall t, k | t in s.db && k in Listed(s.db, t) && s.db[t].keySpace.Some? && s.db[t].keySpace != Some("")
      ensures There(s, Cell(s.db[t].keySpace.value, k))
    {
      InventoryMembers(EntriesOf(Some(s.db[t])), k);
      var e :| e in EntriesOf(Some(s.db[t])) && k in e.entry.desired;
      NothingReplaced(s, t, e.name);
    }
  }

  lemma NothingReplaced(s: Steps, t: Target, name: string)
    requires Settled(s)
    ensures !Replaced(s, t, name)
  {
    forall z, j | z in s.flights && 0 <= j < |s.flights[z].parts| && j < |s.flights[z].y.parts|
      ensures !IsReplaced(s.flights[z], j, t, name)
    {
      assert s.flights[z].parts[j].recorded == |s.flights[z].y.parts[j].ws|;
    }
  }

  // -- What an unguarded prune does ---------------------------------------------

  predicate IsOpen(s: Steps, z: nat, j: nat, k: Key) {
    z in s.flights && j < |s.flights[z].parts| && j < |s.flights[z].y.parts|
    && exists n :: 0 <= n < |s.flights[z].y.parts[j].ws| && Open(s.flights[z], j, n, k)
  }

  /** Whatever the sink reads back and however deleting goes, the prune takes nothing another part has open. */
  ghost predicate SparesOpen(s: Steps, id: nat, i: nat)
    requires id in s.flights && i < |s.flights[id].y.parts|
  {
    forall live, answer, z: nat, j: nat, k :: (z, j) != (id, i) && IsOpen(s, z, j, k) ==>
      var p := s.flights[id].y.parts[i].(live := live, answer := answer);
      Cell(Place(s.flights[z].y, s.flights[z].y.parts[j]), k) !in TakenBy(s.db, s.flights[id].y, p)
  }

  /**
   Exactly when an interleaving can lose a key: a prune can take one that another sync, or another
   environment of its own, has written and not recorded if and only if it is up for deletion in the key
   space being pruned. The condition is on the ledger, the rule and the files of the syncs under way.
   */
  lemma PruneSparesOpenExactly(s: Steps, id: nat, i: nat)
    requires GoodLedger(s.db) && FlightsAreGood(s) && id in s.flights && i < |s.flights[id].y.parts|
    ensures SparesOpen(s, id, i) <==> NothingOpen(s, id, i)
  {
    var y, p := s.flights[id].y, s.flights[id].y.parts[i];
    if NothingOpen(s, id, i) {
      forall live, answer, z: nat, j: nat, k | (z, j) != (id, i) && IsOpen(s, z, j, k)
        ensures Cell(Place(s.flights[z].y, s.flights[z].y.parts[j]), k) !in TakenBy(s.db, y,
                                                                                    p.(live := live, answer := answer))
      {
        OpenIsSpared(s, id, i, live, answer, z, j, k);
      }
    }
    if SparesOpen(s, id, i) {
      forall z, j, n, k | z in s.flights && 0 <= j < |s.flights[z].parts| && j < |s.flights[z].y.parts|
          && (z, j) != (id, i)
                          && Open(s.flights[z], j, n, k)
                              && Place(s.flights[z].y, s.flights[z].y.parts[j]) == Place(y, p)
        ensures k !in Deletable(s.db, y, p)
      {
        SparedIsNotDeletable(s, id, i, z, j, n, k);
      }
    }
  }

  lemma OpenIsSpared(s: Steps, id: nat, i: nat, live: Option<map<Key, Live>>, answer: Sinks.DeleteAnswer, z: nat,
                     j: nat, k: Key)
    requires id in s.flights && i < |s.flights[id].y.parts| && NothingOpen(s, id, i) && (z, j) != (id, i)
    requires IsOpen(s, z, j, k)
    ensures var p := s.flights[id].y.parts[i].(live := live, answer := answer);
            Cell(Place(s.flights[z].y, s.flights[z].y.parts[j]), k) !in TakenBy(s.db, s.flights[id].y, p)
  {
    var y, p := s.flights[id].y, s.flights[id].y.parts[i];
    hide Deletable, MineOf, Open, Place;
    var n :| 0 <= n < |s.flights[z].y.parts[j].ws| && Open(s.flights[z], j, n, k);
    MineIsDeletable(s.db, y, p.(live := live, answer := answer));
    SameDeletable(s.db, y, p, live, answer);
  }

  lemma SparedIsNotDeletable(s: Steps, id: nat, i: nat, z: nat, j: nat, n: nat, k: Key)
    requires GoodLedger(s.db) && id in s.flights && i < |s.flights[id].y.parts| && SparesOpen(s, id, i)
    requires z in s.flights && j < |s.flights[z].parts| && j < |s.flights[z].y.parts| && (z, j) != (id, i)
    requires Open(s.flights[z], j, n, k)
    requires Place(s.flights[z].y, s.flights[z].y.parts[j]) == Place(s.flights[id].y, s.flights[id].y.parts[i])
    ensures k !in Deletable(s.db, s.flights[id].y, s.flights[id].y.parts[i])
  {
    var y, p := s.flights[id].y, s.flights[id].y.parts[i];
    assert IsOpen(s, z, j, k);
    if k in Deletable(s.db, y, p) {
      TakenWhenHidden(s.db, y, p, k);
    }
  }

  lemma SameDeletable(db: Db, y: Sync, p: Part, live: Option<map<Key, Live>>, answer: Sinks.DeleteAnswer)
    ensures Deletable(db, y, p.(live := live, answer := answer)) == Deletable(db, y, p)
  {
  }

  lemma TakenWhenHidden(db: Db, y: Sync, p: Part, k: Key)
    requires GoodLedger(db) && k in Deletable(db, y, p)
    ensures Cell(Place(y, p), k) in TakenBy(db, y, p.(live := Some(map[k := Unreadable]), answer := Sinks.Deleted(1)))
  {
    var q := p.(live := Some(map[k := Unreadable]), answer := Sinks.Deleted(1));
    assert Place(y, q) == Place(y, p);
    SameDeletable(db, y, p, q.live, q.answer);
    HiddenKeyIsMine(db, y, q, k);
    assert k in Removed(MineOf(db, y, q), q.answer);
  }

  lemma FlightsStayGood(s: Steps, s': Steps, id: nat, f: Flight)
    requires FlightsAreGood(s) && s'.flights == s.flights[id := f] && GoodFlight(f) && SyncAllowed(f.y)
    ensures FlightsAreGood(s')
  {
    hide GoodFlight, SyncAllowed;
  }

  lemma LegalKeepsFlights(s: Steps, e: Event)
    requires FlightsAreGood(s) && Legal(s, e)
    ensures FlightsAreGood(Do(s, e))
  {
    if !e.Outside? {
      var s' := Do(s, e);
      FlightAfter(s, e);
      FlightsStayGood(s, s', e.id, s'.flights[e.id]);
    }
  }

  lemma FlightAfter(s: Steps, e: Event)
    requires FlightsAreGood(s) && Legal(s, e) && !e.Outside?
    ensures var s' := Do(s, e);
            e.id in s'.flights && s'.flights == s.flights[e.id := s'.flights[e.id]]
            && GoodFlight(s'.flights[e.id]) && SyncAllowed(s'.flights[e.id].y)
  {
    if e.id in s.flights {
      assert GoodFlight(s.flights[e.id]);
    }
  }

  ghost predicate LegalRuns(first: Steps, events: seq<Event>, last: Steps)
    requires FlightsAreGood(first)
    decreases |events|
  {
    if events == [] then last == first
    else
      Legal(first, events[0])
      && (LegalKeepsFlights(first, events[0]); LegalRuns(Do(first, events[0]), events[1..], last))
  }

  /** Nothing writes the cell again, and nothing outside puts it back. */
  predicate NeverPutBack(events: seq<Event>, cell: Cell) {
    forall i :: 0 <= i < |events| ==>
      (events[i].Write? ==> events[i].cell != cell) && (events[i].Outside? ==> cell !in events[i].store)
  }

  lemma {:induction false} StaysGone(first: Steps, events: seq<Event>, last: Steps, cell: Cell)
    requires FlightsAreGood(first) && LegalRuns(first, events, last) && NeverPutBack(events, cell)
    requires cell !in first.store
    ensures FlightsAreGood(last) && cell !in last.store
    decreases |events|
  {
    if events != [] {
      LegalKeepsFlights(first, events[0]);
      assert cell !in Do(first, events[0]).store;
      StaysGone(Do(first, events[0]), events[1..], last, cell);
    }
  }

  lemma RecordLists(s: Steps, id: nat, i: nat, k: Key)
    requires FlightsAreGood(s) && CanRecord(s, id, i)
    requires k in s.flights[id].y.parts[i].ws[s.flights[id].parts[i].recorded].flat
    ensures var s', f := AfterRecord(s, id, i), s.flights[id];
            var t := PartTarget(f.y, f.y.parts[i]);
            t in s'.db && k in Listed(s'.db, t) && s'.db[t].keySpace == Some(Place(f.y, f.y.parts[i]))
            && s'.store == s.store
  {
    var s', f := AfterRecord(s, id, i), s.flights[id];
    assert GoodFlight(f);
    var p, g := f.y.parts[i], f.parts[i];
    var t, w := PartTarget(f.y, p), p.ws[g.recorded];
    var e := NamedEntry(w.name, EntryOf(w, f.y.w.digestOf));
    RecordedEntry(Get(s.db, t), w, PendingAfter(g.seen.value, f.y, p), Some(Place(f.y, p)), f.y.w.digestOf, e);
    InventoryMembers(EntriesOf(Some(s'.db[t])), k);
  }

  /**
   A key taken before its file is recorded is then listed and gone, whatever steps lie between, until it is
   put back.
   */
  lemma LostKeyIsListed(first: Steps, events: seq<Event>, last: Steps, id: nat, i: nat, k: Key, cell: Cell)
    requires FlightsAreGood(first) && LegalRuns(first, events, last) && NeverPutBack(events, cell)
    requires cell !in first.store
    requires CanRecord(last, id, i) && i < |last.flights[id].y.parts|
    requires cell == Cell(Place(last.flights[id].y, last.flights[id].y.parts[i]), k)
    requires k in last.flights[id].y.parts[i].ws[last.flights[id].parts[i].recorded].flat
    ensures FlightsAreGood(last)
    ensures var s', f := AfterRecord(last, id, i), last.flights[id];
            var t := PartTarget(f.y, f.y.parts[i]);
            && t in s'.db && k in Listed(s'.db, t) && s'.db[t].keySpace == Some(cell.space)
            && cell !in s'.store
  {
    StaysGone(first, events, last, cell);
    RecordLists(last, id, i, k);
  }

  // -- What the locks are worth -------------------------------------------------

  ghost predicate TargetsApart(s: Steps) {
    forall a, b :: a in s.flights && b in s.flights && a != b && s.flights[a].locked && s.flights[b].locked ==>
      !SharesTarget(s.flights[a].y, s.flights[b].y)
  }

  lemma SharingIsMutual(y: Sync, z: Sync)
    requires SharesTarget(y, z)
    ensures SharesTarget(z, y)
  {
    var i :| 0 <= i < |y.parts| && InSync(z, PartTarget(y, y.parts[i]));
    var j :| 0 <= j < |z.parts| && PartTarget(z, z.parts[j]) == PartTarget(y, y.parts[i]);
    assert InSync(y, PartTarget(z, z.parts[j]));
  }

  /** The locks held stay apart: only Begin takes some, and it takes none that another holds. */
  lemma LocksKeepTargetsApart(s: Steps, e: Event)
    requires TargetsApart(s) && Legal(s, e)
    ensures TargetsApart(Do(s, e))
  {
    var s' := Do(s, e);
    hide SharesTarget;
    if e.Begin? {
      forall other | other in s.flights && s.flights[other].locked
        ensures !SharesTarget(e.y, s.flights[other].y) && !SharesTarget(s.flights[other].y, e.y)
      {
        if SharesTarget(s.flights[other].y, e.y) {
          SharingIsMutual(s.flights[other].y, e.y);
        }
      }
    } else {
      LocksOnlyGo(s, e);
    }
  }

  lemma LocksOnlyGo(s: Steps, e: Event)
    requires Legal(s, e) && !e.Begin?
    ensures forall z :: z in Do(s, e).flights ==>
              z in s.flights && Do(s, e).flights[z].y == s.flights[z].y && (Do(s, e).flights[z].locked ==>
                  s.flights[z].locked)
  {
  }

  /**
   So what a prune can miss of its own environment is only what a sync left that has given up its locks
   and is not recorded: two syncs of one environment never write or prune at the same time.
   */
  lemma OwnTargetIsUnlocked(s: Steps, id: nat, i: nat, z: nat, j: nat)
    requires TargetsApart(s) && CanPrune(s, id, i) && z in s.flights && z != id
    requires i < |s.flights[id].y.parts| && j < |s.flights[z].y.parts|
    requires PartTarget(s.flights[z].y, s.flights[z].y.parts[j])
               == PartTarget(s.flights[id].y, s.flights[id].y.parts[i])
    ensures !s.flights[z].locked
  {
    assert InSync(s.flights[z].y, PartTarget(s.flights[id].y, s.flights[id].y.parts[i]));
    assert SharesTarget(s.flights[id].y, s.flights[z].y);
  }
}
