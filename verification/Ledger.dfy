/**
 The ledger (ledger.py): for every target the desired state written last, per file, and the stale keys
 still to delete. record_target is what keeps prune's inventory.
 */
module Ledger {
  import opened Options

  type Key = string

  /** An environment of a tenant's datasource. */
  datatype Target = Target(tenant: string, datasource: string, env: string)

  /** What one file put into the target. Secret values are masked; their digests stand in for them. */
  datatype Entry = Entry(desired: map<Key, string>, digests: map<Key, string>)

  datatype NamedEntry = NamedEntry(name: string, entry: Entry)

  /** desiredByFile, last written last; a record made before per-file tracking has only its files' names. */
  datatype Tracking = ByFile(entries: seq<NamedEntry>) | Untracked(files: string)

  /** A stale key still to delete, with the value or digest last written for it. */
  datatype Pending = Pending(value: Option<string>, digest: Option<string>)

  datatype Record = Record(
    tracking: Tracking,
    desired: map<Key, string>,
    digests: map<Key, string>,
    pending: map<Key, Pending>,
    keySpace: Option<string>)

  type Db = map<Target, Record>

  /** A value the sink gives back, or the mark of one it holds but never shows. */
  datatype Live = Readable(text: string) | Unreadable

  datatype KeyState = Synced | Drifted | Missing | Hidden

  const SECRET_MASK := "***"

  /** key_state: one key as the sink holds it against what was written. */
  function StateOf(digestOf: string -> string, desired: string, live: Option<Live>, digest: Option<string>): KeyState {
    match live
    case Some(Unreadable) => Hidden
    case None => Missing
    case Some(Readable(text)) =>
      var same := if digest.Some? then digestOf(text) == digest.value else text == desired;
      if same then Synced else Drifted
  }

  function EntriesOf(record: Option<Record>): seq<NamedEntry> {
    match record
    case None => []
    case Some(r) =>
      match r.tracking
      case ByFile(entries) => entries
      case Untracked(files) => if r.desired == map[] then [] else [NamedEntry(files, Entry(r.desired, r.digests))]
  }

  function Inventory(entries: seq<NamedEntry>): set<Key> {
    set i, k | 0 <= i < |entries| && k in entries[i].entry.desired :: k
  }

  /** The keys a target's record lists. */
  function Listed(db: Db, t: Target): set<Key> {
    Inventory(EntriesOf(Get(db, t)))
  }

  /** The keys varTrack still answers for: listed, or waiting to be deleted. */
  function Owned(record: Option<Record>): set<Key> {
    Inventory(EntriesOf(record)) + (if record.Some? then record.value.pending.Keys else {})
  }

  /** A record made before files were tracked lists its desired keys. */
  lemma UntrackedListsItsKeys(db: Db, t: Target, files: string)
    requires t in db && db[t].tracking == Untracked(files)
    ensures Listed(db, t) == db[t].desired.Keys
  {
    var entries := EntriesOf(Get(db, t));
    assert entries != [] ==> Inventory(entries) == entries[0].entry.desired.Keys;
  }

  // -- Recording a written file -------------------------------------------------

  /** One file just written: its name in the inventory, its path, its keys and which of them are secret. */
  datatype Writing = Writing(name: string, path: string, flat: map<Key, string>, secrets: set<Key>)

  /** inventory_key. */
  function NameOf(repo: string, path: string): string {
    repo + ":" + path
  }

  /** A file as run_stage_sync hands it on: it has keys, and its inventory name says the repository and the path. */
  ghost predicate Received(w: Writing) {
    w.flat != map[] && exists repo :: w.name == NameOf(repo, w.path)
  }

  function EntryOf(w: Writing, digestOf: string -> string): Entry {
    Entry(map k | k in w.flat :: if k in w.secrets then SECRET_MASK else w.flat[k],
          map k | k in w.flat && k in w.secrets :: digestOf(w.flat[k]))
  }

  function Without(entries: seq<NamedEntry>, names: set<string>): seq<NamedEntry> {
    if entries == [] then []
    else if entries[0].name in names then Without(entries[1..], names)
    else [entries[0]] + Without(entries[1..], names)
  }

  /** A key in two files holds whatever was written last. */
  function LastDesired(entries: seq<NamedEntry>): map<Key, string> {
    if entries == [] then map[]
    else LastDesired(entries[..|entries| - 1]) + entries[|entries| - 1].entry.desired
  }

  function LastDigests(entries: seq<NamedEntry>): map<Key, string> {
    if entries == [] then map[]
    else
      var last := entries[|entries| - 1].entry;
      LastDigests(entries[..|entries| - 1]) - last.desired.Keys
      + (map k | k in last.desired && k in last.digests :: last.digests[k])
  }

  /** The stale keys kept for the next sync: those wanted that no file lists, as last written. */
  function StillPending(wanted: set<Key>, desired: map<Key, string>, prev: Record): map<Key, Pending> {
    map k | k in wanted && k !in desired && (k in prev.pending || k in prev.desired) ::
      if k in prev.pending then prev.pending[k] else Pending(Some(prev.desired[k]), Get(prev.digests, k))
  }

  const EMPTY_RECORD := Record(Untracked(""), map[], map[], map[], None)

  /** record_target as a function of the record before it. */
  function Recorded(prev: Option<Record>, w: Writing, wanted: Option<set<Key>>, space: Option<string>,
                    digestOf: string -> string): Record
  {
    var was := if prev.Some? then prev.value else EMPTY_RECORD;
    var entries := Without(EntriesOf(prev), {w.path, w.name}) + [NamedEntry(w.name, EntryOf(w, digestOf))];
    var desired := LastDesired(entries);
    Record(ByFile(entries), desired, LastDigests(entries),
           StillPending(if wanted.Some? then wanted.value else was.pending.Keys, desired, was),
           if space.Some? then space else was.keySpace)
  }

  /** One entry laid over the merged view, key by key. */
  method MergeEntry(desired: map<Key, string>, digests: map<Key, string>, entry: Entry)
    returns (desired': map<Key, string>, digests': map<Key, string>)
    ensures desired' == desired + entry.desired
    ensures digests' == digests - entry.desired.Keys
                        + (map k | k in entry.desired && k in entry.digests :: entry.digests[k])
  {
    desired', digests' := desired, digests;
    var todo := entry.desired.Keys;
    ghost var done: set<Key> := {};
    assert Laid(desired', desired, entry.desired, done) && Laid(digests', digests, entry.digests, done);
    hide Laid;
    while todo != {}
      invariant todo + done == entry.desired.Keys
      invariant Laid(desired', desired, entry.desired, done)
      invariant Laid(digests', digests, entry.digests, done)
      decreases todo
    {
      var k :| k in todo;
      OneMoreLaid(desired', desired, entry.desired, done, k);
      OneMoreLaid(digests', digests, entry.digests, done, k);
      desired' := desired'[k := entry.desired[k]];
      digests' := if k in entry.digests then digests'[k := entry.digests[k]] else digests' - {k};
      todo, done := todo - {k}, done + {k};
    }
    AllLaid(desired', desired, entry.desired, entry.desired.Keys);
    AllLaid(digests', digests, entry.digests, entry.desired.Keys);
    assert (map k | k in entry.desired && k in entry.desired :: entry.desired[k]) == entry.desired;
    assert desired - entry.desired.Keys + entry.desired == desired + entry.desired;
  }

  /** *top* laid over *below* at the keys done so far; a key done that it lacks is gone. */
  ghost predicate Laid(m: map<Key, string>, below: map<Key, string>, top: map<Key, string>, done: set<Key>) {
    && (forall k :: k in m <==> if k in done then k in top else k in below)
    && (forall k :: k in m ==> m[k] == if k in done then top[k] else below[k])
  }

  lemma OneMoreLaid(m: map<Key, string>, below: map<Key, string>, top: map<Key, string>, done: set<Key>, k: Key)
    requires Laid(m, below, top, done)
    ensures Laid(if k in top then m[k := top[k]] else m - {k}, below, top, done + {k})
  {
  }

  lemma AllLaid(m: map<Key, string>, below: map<Key, string>, top: map<Key, string>, done: set<Key>)
    requires Laid(m, below, top, done)
    ensures m == below - done + (map k | k in done && k in top :: top[k])
  {
  }

  /** The keys still to delete, one by one. */
  method KeepPending(wanted: set<Key>, desired: map<Key, string>, prev: Record) returns (pending: map<Key, Pending>)
    ensures pending == StillPending(wanted, desired, prev)
  {
    var todo := wanted;
    pending := map[];
    while todo != {}
      invariant todo <= wanted
      invariant pending == StillPending(wanted - todo, desired, prev)
    {
      var k :| k in todo;
      if k !in desired {
        if k in prev.pending {
          pending := pending[k := prev.pending[k]];
        } else if k in prev.desired {
          pending := pending[k := Pending(Some(prev.desired[k]), Get(prev.digests, k))];
        }
      }
      todo := todo - {k};
    }
    assert wanted - todo == wanted;
  }

  /** record_target as it runs: the merged view of all files is rebuilt entry by entry. */
  method RecordTarget(prev: Option<Record>, w: Writing, wanted: Option<set<Key>>, space: Option<string>,
                      digestOf: string -> string) returns (doc: Record)
    ensures doc == Recorded(prev, w, wanted, space, digestOf)
  {
    var was := if prev.Some? then prev.value else EMPTY_RECORD;
    var entries := Without(EntriesOf(prev), {w.path, w.name}) + [NamedEntry(w.name, EntryOf(w, digestOf))];
    var desired: map<Key, string>, digests: map<Key, string> := map[], map[];
    for i := 0 to |entries|
      invariant desired == LastDesired(entries[..i]) && digests == LastDigests(entries[..i])
    {
      desired, digests := MergeEntry(desired, digests, entries[i].entry);
      assert entries[..i + 1][..i] == entries[..i];
    }
    assert entries[..|entries|] == entries;
    var pending := KeepPending(if wanted.Some? then wanted.value else was.pending.Keys, desired, was);
    doc := Record(ByFile(entries), desired, digests, pending, if space.Some? then space else was.keySpace);
  }

  // -- What recording keeps -----------------------------------------------------

  /** The merged view and the per-file inventory agree, and a pending key is listed by no file. */
  ghost predicate WellFormed(r: Record) {
    && Inventory(EntriesOf(Some(r))) == r.desired.Keys
    && r.digests.Keys <= r.desired.Keys
    && r.pending.Keys !! r.desired.Keys
  }

  /** Every pending key still has the value last written for it. */
  ghost predicate ValuesKnown(r: Record) {
    forall k :: k in r.pending ==> r.pending[k].value.Some?
  }

  lemma InventoryAppend(entries: seq<NamedEntry>, e: NamedEntry)
    ensures Inventory(entries + [e]) == Inventory(entries) + e.entry.desired.Keys
  {
    var both := entries + [e];
    forall k | k in Inventory(entries) ensures k in Inventory(both) {
      var i :| 0 <= i < |entries| && k in entries[i].entry.desired;
      assert both[i] == entries[i];
    }
    forall k | k in e.entry.desired ensures k in Inventory(both) {
      assert both[|entries|] == e;
    }
  }

  lemma {:induction false} MergedKeys(entries: seq<NamedEntry>)
    ensures LastDesired(entries).Keys == Inventory(entries)
    ensures LastDigests(entries).Keys <= LastDesired(entries).Keys
  {
    if entries != [] {
      var init, last := entries[..|entries| - 1], entries[|entries| - 1];
      MergedKeys(init);
      InventoryAppend(init, last);
      assert entries == init + [last];
    }
  }

  /** Whatever the record was before, after record_target prune can look up every key it lists. */
  lemma RecordedIsWellFormed(prev: Option<Record>, w: Writing, wanted: Option<set<Key>>, space: Option<string>,
                             digestOf: string -> string)
    ensures WellFormed(Recorded(prev, w, wanted, space, digestOf))
  {
    MergedKeys(EntriesOf(Some(Recorded(prev, w, wanted, space, digestOf))));
  }

  lemma RecordedKnowsValues(prev: Option<Record>, w: Writing, wanted: Option<set<Key>>, space: Option<string>,
                            digestOf: string -> string)
    requires prev.Some? ==> ValuesKnown(prev.value)
    ensures ValuesKnown(Recorded(prev, w, wanted, space, digestOf))
  {
  }

  // -- Recording a whole sync ---------------------------------------------------

  /** recorder._record_envs for one environment: record_target for each of its files in turn. */
  function RecordedAll(prev: Option<Record>, ws: seq<Writing>, wanted: Option<set<Key>>, space: Option<string>,
                       digestOf: string -> string): Option<Record>
  {
    if ws == [] then prev
    else
      var before := RecordedAll(prev, ws[..|ws| - 1], wanted, space, digestOf);
      Some(Recorded(before, ws[|ws| - 1], wanted, space, digestOf))
  }

  /** The record says where the last sync put its keys; a recording that does not know keeps what it said. */
  lemma {:induction false} KeySpaceIsLatest(prev: Option<Record>, ws: seq<Writing>, wanted: Option<set<Key>>,
                                            space: Option<string>, digestOf: string -> string)
    requires ws != []
    ensures RecordedAll(prev, ws, wanted, space, digestOf).value.keySpace
            == if space.Some? then space else if prev.Some? then prev.value.keySpace else None
  {
    if |ws| > 1 {
      KeySpaceIsLatest(prev, ws[..|ws| - 1], wanted, space, digestOf);
    }
  }

  /** The names under which earlier syncs may have recorded the files written now. */
  function Rewritten(ws: seq<Writing>): set<string> {
    (set i | 0 <= i < |ws| :: ws[i].name) + (set i | 0 <= i < |ws| :: ws[i].path)
  }

  /** The keys the files written now hold. */
  function WrittenKeys(ws: seq<Writing>): set<Key> {
    set i, k | 0 <= i < |ws| && k in ws[i].flat :: k
  }

  /** Each file once, and no file's path looks like another's inventory name. */
  ghost predicate DistinctFiles(ws: seq<Writing>) {
    forall i, j :: 0 <= i < |ws| && 0 <= j < |ws| ==> (i != j ==> ws[i].name != ws[j].name) && ws[i].path != ws[j].name
  }

  lemma {:induction false} WithoutMembers(entries: seq<NamedEntry>, names: set<string>)
    ensures forall e :: e in Without(entries, names) <==> e in entries && e.name !in names
  {
    if entries != [] {
      WithoutMembers(entries[1..], names);
      assert entries == [entries[0]] + entries[1..];
    }
  }

  lemma InventoryMembers(entries: seq<NamedEntry>, k: Key)
    ensures k in Inventory(entries) <==> exists e :: e in entries && k in e.entry.desired
  {
    if e :| e in entries && k in e.entry.desired {
      var i :| 0 <= i < |entries| && entries[i] == e;
    }
  }

  ghost predicate EntryWritten(ws: seq<Writing>, digestOf: string -> string, e: NamedEntry) {
    exists i :: 0 <= i < |ws| && e == NamedEntry(ws[i].name, EntryOf(ws[i], digestOf))
  }

  lemma OneMoreWritten(ws: seq<Writing>, digestOf: string -> string, e: NamedEntry)
    requires ws != [] && DistinctFiles(ws)
    ensures var n := |ws| - 1;
            && DistinctFiles(ws[..n])
            && (e.name in Rewritten(ws) <==> e.name in Rewritten(ws[..n]) || e.name in {ws[n].path, ws[n].name})
            && (EntryWritten(ws[..n], digestOf, e) ==> e.name !in {ws[n].path, ws[n].name})
            && (EntryWritten(ws, digestOf, e) <==>
                EntryWritten(ws[..n], digestOf, e) || e == NamedEntry(ws[n].name, EntryOf(ws[n], digestOf)))
  {
    var n := |ws| - 1;
    var init := ws[..n];
    assert forall i :: 0 <= i < n ==> init[i] == ws[i];
  }

  lemma RecordedEntry(prev: Option<Record>, w: Writing, wanted: Option<set<Key>>, space: Option<string>,
                      digestOf: string -> string, e: NamedEntry)
    ensures e in EntriesOf(Some(Recorded(prev, w, wanted, space, digestOf))) <==>
            (e in EntriesOf(prev) && e.name !in {w.path, w.name}) || e == NamedEntry(w.name, EntryOf(w, digestOf))
  {
    WithoutMembers(EntriesOf(prev), {w.path, w.name});
  }

  lemma {:induction false} RecordedEntries(prev: Option<Record>, ws: seq<Writing>, wanted: Option<set<Key>>,
                                           space: Option<string>, digestOf: string -> string, e: NamedEntry)
    requires DistinctFiles(ws)
    ensures e in EntriesOf(RecordedAll(prev, ws, wanted, space, digestOf)) <==>
            (e in EntriesOf(prev) && e.name !in Rewritten(ws)) || EntryWritten(ws, digestOf, e)
  {
    if ws != [] {
      var n := |ws| - 1;
      OneMoreWritten(ws, digestOf, e);
      RecordedEntries(prev, ws[..n], wanted, space, digestOf, e);
      RecordedEntry(RecordedAll(prev, ws[..n], wanted, space, digestOf), ws[n], wanted, space, digestOf, e);
      hide Recorded, EntryWritten, Rewritten, EntriesOf;
    }
  }

  /** After a sync is recorded, the target lists the keys of the files it kept and of those it wrote. */
  lemma RecordedInventory(prev: Option<Record>, ws: seq<Writing>, wanted: Option<set<Key>>, space: Option<string>,
                          digestOf: string -> string)
    requires DistinctFiles(ws)
    ensures Inventory(EntriesOf(RecordedAll(prev, ws, wanted, space, digestOf)))
            == Inventory(Without(EntriesOf(prev), Rewritten(ws))) + WrittenKeys(ws)
  {
    var after, kept := EntriesOf(RecordedAll(prev, ws, wanted, space, digestOf)),
        Without(EntriesOf(prev), Rewritten(ws));
    WithoutMembers(EntriesOf(prev), Rewritten(ws));
    forall k ensures k in Inventory(after) <==> k in Inventory(kept) || k in WrittenKeys(ws) {
      InventoryMembers(after, k);
      InventoryMembers(kept, k);
      if k in Inventory(after) {
        var e :| e in after && k in e.entry.desired;
        RecordedEntries(prev, ws, wanted, space, digestOf, e);
        assert e in kept || k in WrittenKeys(ws);
      }
      if k in Inventory(kept) {
        var e :| e in kept && k in e.entry.desired;
        RecordedEntries(prev, ws, wanted, space, digestOf, e);
      }
      if k in WrittenKeys(ws) {
        var i :| 0 <= i < |ws| && k in ws[i].flat;
        RecordedEntries(prev, ws, wanted, space, digestOf, NamedEntry(ws[i].name, EntryOf(ws[i], digestOf)));
      }
    }
  }

  lemma {:induction false} WantedStaysOwned(prev: Option<Record>, ws: seq<Writing>, wanted: set<Key>,
                                            space: Option<string>, digestOf: string -> string)
    requires prev.Some? ==> WellFormed(prev.value)
    requires wanted <= Owned(prev)
    ensures var after := RecordedAll(prev, ws, Some(wanted), space, digestOf);
            && (after.Some? ==> WellFormed(after.value))
            && wanted <= Owned(after)
            && (ws != [] ==> after.value.pending.Keys <= wanted)
  {
    if ws != [] {
      var before := RecordedAll(prev, ws[..|ws| - 1], Some(wanted), space, digestOf);
      WantedStaysOwned(prev, ws[..|ws| - 1], wanted, space, digestOf);
      RecordedIsWellFormed(before, ws[|ws| - 1], Some(wanted), space, digestOf);
    }
  }

  /** However many files the sync wrote, exactly the stale keys it could not delete are pending afterwards. */
  lemma PendingIsExactlyWanted(prev: Option<Record>, ws: seq<Writing>, wanted: set<Key>, space: Option<string>,
                               digestOf: string -> string)
    requires prev.Some? ==> WellFormed(prev.value)
    requires wanted <= Owned(prev)
    requires ws != []
    ensures var after := RecordedAll(prev, ws, Some(wanted), space, digestOf);
            after.Some? && after.value.pending.Keys == wanted - Inventory(EntriesOf(after))
  {
    WantedStaysOwned(prev, ws, wanted, space, digestOf);
  }

  lemma {:induction false} RecordedAllStaysGood(prev: Option<Record>, ws: seq<Writing>, wanted: Option<set<Key>>,
                                                space: Option<string>, digestOf: string -> string)
    requires prev.Some? ==> WellFormed(prev.value) && ValuesKnown(prev.value)
    ensures var after := RecordedAll(prev, ws, wanted, space, digestOf);
            && (after.Some? ==> WellFormed(after.value) && ValuesKnown(after.value))
            && (ws != [] && space.Some? ==> after.Some? && after.value.keySpace == space)
  {
    if ws != [] {
      var before := RecordedAll(prev, ws[..|ws| - 1], wanted, space, digestOf);
      RecordedAllStaysGood(prev, ws[..|ws| - 1], wanted, space, digestOf);
      RecordedIsWellFormed(before, ws[|ws| - 1], wanted, space, digestOf);
      RecordedKnowsValues(before, ws[|ws| - 1], wanted, space, digestOf);
    }
  }

  /** A sync that did not prune leaves every pending key pending, but those its files have again. */
  lemma {:induction false} PendingStays(prev: Option<Record>, ws: seq<Writing>, space: Option<string>,
                                        digestOf: string -> string)
    requires prev.Some? ==> WellFormed(prev.value)
    ensures var after := RecordedAll(prev, ws, None, space, digestOf);
            && (after.Some? ==> WellFormed(after.value))
            && PendingKeys(after) == PendingKeys(prev) - WrittenKeys(ws)
  {
    if ws == [] {
      assert WrittenKeys(ws) == {};
    } else {
      var init, last := ws[..|ws| - 1], ws[|ws| - 1];
      var before := RecordedAll(prev, init, None, space, digestOf);
      PendingStays(prev, init, space, digestOf);
      RecordedIsWellFormed(before, last, None, space, digestOf);
      OnePendingStays(before, last, space, digestOf);
      WrittenOneMore(ws);
      hide Recorded, WellFormed, WrittenKeys;
    }
  }

  function PendingKeys(record: Option<Record>): set<Key> {
    if record.Some? then record.value.pending.Keys else {}
  }

  lemma PendingIsNotListed(prev: Option<Record>, names: set<string>)
    requires prev.Some? ==> WellFormed(prev.value)
    ensures Inventory(Without(EntriesOf(prev), names)) !! PendingKeys(prev)
  {
    var kept := Without(EntriesOf(prev), names);
    WithoutMembers(EntriesOf(prev), names);
    assert prev.None? ==> EntriesOf(prev) == [];
    hide Without, EntriesOf;
    forall k | k in Inventory(kept) ensures k in Inventory(EntriesOf(prev)) {
      InventoryMembers(kept, k);
      InventoryMembers(EntriesOf(prev), k);
    }
  }

  lemma OnePendingStays(prev: Option<Record>, w: Writing, space: Option<string>, digestOf: string -> string)
    requires prev.Some? ==> WellFormed(prev.value)
    ensures Recorded(prev, w, None, space, digestOf).pending.Keys == PendingKeys(prev) - w.flat.Keys
  {
    var kept := Without(EntriesOf(prev), {w.path, w.name});
    var e := NamedEntry(w.name, EntryOf(w, digestOf));
    MergedKeys(kept + [e]);
    InventoryAppend(kept, e);
    PendingIsNotListed(prev, {w.path, w.name});
    assert e.entry.desired.Keys == w.flat.Keys;
    var was := if prev.Some? then prev.value else EMPTY_RECORD;
    var desired := LastDesired(kept + [e]);
    assert Recorded(prev, w, None, space, digestOf).pending == StillPending(was.pending.Keys, desired, was);
    assert desired.Keys == Inventory(kept) + w.flat.Keys;
    hide Recorded, LastDesired, Inventory, WellFormed, EntriesOf, Without, EntryOf, LastDigests;
  }

  lemma WrittenOneMore(ws: seq<Writing>)
    requires ws != []
    ensures WrittenKeys(ws) == WrittenKeys(ws[..|ws| - 1]) + ws[|ws| - 1].flat.Keys
  {
    var n := |ws| - 1;
    forall k ensures k in WrittenKeys(ws) <==> k in WrittenKeys(ws[..n]) || k in ws[n].flat {
      if k in WrittenKeys(ws[..n]) {
        var i :| 0 <= i < n && k in ws[..n][i].flat;
        assert k in ws[i].flat;
      }
      if k in WrittenKeys(ws) {
        var i :| 0 <= i < |ws| && k in ws[i].flat;
        assert i < n ==> k in ws[..n][i].flat;
      }
    }
  }
}
