/**
 Which keys are varTrack's own, in terms of the values themselves: what was written, what the records keep of
 it, and what the sink reads back when a prune asks.
 */
module KeyOwnership {
  import opened Options
  import opened Settings
  import opened Ledger
  import opened KeySpaces
  import opened PruneConfigs
  import opened Sinks
  import opened Prune
  import opened StageSync
  import opened SyncRuns

  /** Text read back is what a value and perhaps a digest say: by the digest when there is one. */
  predicate IsWritten(digestOf: string -> string, text: string, value: string, digest: Option<string>) {
    (digest == None && text == value) || digest == Some(digestOf(text))
  }

  /** The value a record keeps for a key it lists or still has to delete, and its digest. */
  ghost predicate Keeps(r: Record, k: Key, value: string, digest: Option<string>) {
    || (k in r.desired && r.desired[k] == value && digest == if k in r.digests then Some(r.digests[k]) else None)
    || (k !in r.desired && k in r.pending && r.pending[k].value == Some(value) && r.pending[k].digest == digest)
  }

  /** The record still knows what was last written for the key. */
  ghost predicate Knows(r: Record, k: Key) {
    k in r.desired || (k in r.pending && r.pending[k].value.Some?)
  }

  /** A prune decided by what the sink read back. */
  ghost predicate Decides(w: World, cls: string, rule: Rule, cfg: PruneConfig, db: Db, me: Target, ws: seq<Writing>,
                          live: map<Key, Live>, answer: DeleteAnswer, o: PruneOutcome, calls: seq<DeleteCall>)
  {
    !cfg.dryRun && OutcomeOf(w, cls, rule, cfg, Some(db), me, ws, Some(live), answer, Some(o), calls)
  }

  /**
   What a prune does with a key it goes for, by the values alone. It is passed to delete_keys exactly when the
   sink holds it without showing it, or shows the value last written; it is reported as changed exactly when
   the sink shows another, or it is not known what was written; and one the sink does not hold is neither.
   */
  lemma DecidedByValue(w: World, cls: string, rule: Rule, cfg: PruneConfig, db: Db, me: Target, ws: seq<Writing>,
                       live: map<Key, Live>, answer: DeleteAnswer, o: PruneOutcome, calls: seq<DeleteCall>,
                       k: Key, value: string, digest: Option<string>)
    requires Decides(w, cls, rule, cfg, db, me, ws, live, answer, o, calls)
    requires k in Candidates(w, cls, rule, cfg, db, me, ws)
    requires me in db && (Knows(db[me], k) ==> Keeps(db[me], k, value, digest))
    ensures k in AllKeys(calls) <==>
            Knows(db[me], k) && k in live && (live[k].Unreadable? || IsWritten(w.digestOf, live[k].text, value, digest))
    ensures k in KeySet(o.skipped) <==>
            !Knows(db[me], k) || (k in live && live[k].Readable? && !IsWritten(w.digestOf, live[k].text, value, digest))
  {
    var expected := ExpectedValues(w, cls, rule, cfg, db, me, ws);
    assert k in db[me].desired || k in db[me].pending;
    assert k in expected && expected[k] == ExpectedOf(db[me], k);
    StateByValue(w, db[me], k, Get(live, k), value, digest);
    CallsAndSkips(w, me.env, expected, live, answer, o, calls, k);
  }

  lemma StateByValue(w: World, r: Record, k: Key, live: Option<Live>, value: string, digest: Option<string>)
    requires (k in r.desired || k in r.pending) && (Knows(r, k) ==> Keeps(r, k, value, digest))
    ensures StaleState(w, ExpectedOf(r, k), live) in {Synced, Hidden} <==>
            Knows(r, k) && live.Some?
            && (live.value.Unreadable? || IsWritten(w.digestOf, live.value.text, value, digest))
    ensures StaleState(w, ExpectedOf(r, k), live) == Drifted <==>
            !Knows(r, k)
            || (live.Some? && live.value.Readable? && !IsWritten(w.digestOf, live.value.text, value, digest))
  {
  }

  lemma CallsAndSkips(w: World, env: string, expected: map<Key, Expected>, live: map<Key, Live>, answer: DeleteAnswer,
                      o: PruneOutcome, calls: seq<DeleteCall>, k: Key)
    requires CarriedOut(w, env, expected, live, answer, o, calls) && k in expected
    ensures k in AllKeys(calls) <==> StaleState(w, expected[k], Get(live, k)) in {Synced, Hidden}
    ensures k in KeySet(o.skipped) <==> StaleState(w, expected[k], Get(live, k)) == Drifted
  {
    hide Accounted, StaleState;
    assert calls != [] ==> calls[1..] == [] && AllKeys(calls[1..]) == {};
  }

  // -- From the file to the delete ----------------------------------------------

  /** The last entry that has the key. */
  function LastWith(entries: seq<NamedEntry>, k: Key): (last: Option<NamedEntry>)
    ensures last.Some? ==> k in last.value.entry.desired
  {
    if entries == [] then None
    else if k in entries[|entries| - 1].entry.desired then Some(entries[|entries| - 1])
    else LastWith(entries[..|entries| - 1], k)
  }

  /** A key that several files have holds what the last of them put there, value and digest. */
  lemma {:induction false} LastFileWins(entries: seq<NamedEntry>, k: Key)
    ensures match LastWith(entries, k)
            case None => k !in LastDesired(entries) && k !in LastDigests(entries)
            case Some(e) => Get(LastDesired(entries), k) == Some(e.entry.desired[k])
                            && Get(LastDigests(entries), k) == Get(e.entry.digests, k)
  {
    if entries != [] {
      LastFileWins(entries[..|entries| - 1], k);
    }
  }

  lemma {:induction false} LastWithAppended(a: seq<NamedEntry>, e: NamedEntry, k: Key)
    ensures LastWith(a + [e], k) == if k in e.entry.desired then Some(e) else LastWith(a, k)
  {
    assert (a + [e])[..|a|] == a;
  }

  lemma {:induction false} LastWithout(entries: seq<NamedEntry>, names: set<string>, k: Key)
    requires LastWith(entries, k).Some? && LastWith(entries, k).value.name !in names
    ensures LastWith(Without(entries, names), k) == LastWith(entries, k)
  {
    var init, last := entries[..|entries| - 1], entries[|entries| - 1];
    assert entries == init + [last];
    WithoutAppended(init, last, names);
    assert Without(init, names) + [] == Without(init, names);
    LastWithAppended(Without(init, names), last, k);
    if k !in last.entry.desired {
      LastWithout(init, names, k);
    }
  }

  lemma {:induction false} WithoutAppended(entries: seq<NamedEntry>, e: NamedEntry, names: set<string>)
    ensures Without(entries + [e], names) == Without(entries, names) + if e.name in names then [] else [e]
  {
    if entries == [] {
      assert entries + [e] == [e] && [e][1..] == [];
    } else {
      assert (entries + [e])[1..] == entries[1..] + [e];
      WithoutAppended(entries[1..], e, names);
    }
  }

  /** What is kept of a file's value: a secret is masked, and its digest stands in for it. */
  predicate KeptAs(w: Writing, digestOf: string -> string, k: Key, value: string, digest: Option<string>)
    requires k in w.flat
  {
    if k in w.secrets then value == "***" && digest == Some(digestOf(w.flat[k]))
    else value == w.flat[k] && digest == None
  }

  /** After a sync is recorded, its record keeps of each key what the last file with it put there. */
  lemma {:induction false} LastWritingIsKept(prev: Option<Record>, ws: seq<Writing>, wanted: Option<set<Key>>,
                                             space: Option<string>, digestOf: string -> string, n: nat, k: Key)
    requires DistinctFiles(ws) && n < |ws| && k in ws[n].flat
    requires forall m :: n < m < |ws| ==> k !in ws[m].flat
    ensures RecordedAll(prev, ws, wanted, space, digestOf).Some?
    ensures LastWith(EntriesOf(RecordedAll(prev, ws, wanted, space, digestOf)), k)
         == Some(NamedEntry(ws[n].name, EntryOf(ws[n], digestOf)))
  {
    LastStep(prev, ws, wanted, space, digestOf, k);
    if n < |ws| - 1 {
      DistinctPrefix(ws, n);
      hide *;
      LastWritingIsKept(prev, ws[..|ws| - 1], wanted, space, digestOf, n, k);
    }
  }

  lemma LastStep(prev: Option<Record>, ws: seq<Writing>, wanted: Option<set<Key>>, space: Option<string>,
                 digestOf: string -> string, k: Key)
    requires ws != []
    ensures RecordedAll(prev, ws, wanted, space, digestOf).Some?
    ensures var last := ws[|ws| - 1];
            var before := LastWith(EntriesOf(RecordedAll(prev, ws[..|ws| - 1], wanted, space, digestOf)), k);
            var after := LastWith(EntriesOf(RecordedAll(prev, ws, wanted, space, digestOf)), k);
            && (k in last.flat ==> after == Some(NamedEntry(last.name, EntryOf(last, digestOf))))
            && (k !in last.flat && before.Some? && before.value.name !in {last.path, last.name} ==> after == before)
  {
    var last := ws[|ws| - 1];
    var entries := EntriesOf(RecordedAll(prev, ws[..|ws| - 1], wanted, space, digestOf));
    LastRecorded(prev, ws, wanted, space, digestOf);
    LastWithAppended(Without(entries, {last.path, last.name}), NamedEntry(last.name, EntryOf(last, digestOf)), k);
    assert k in EntryOf(last, digestOf).desired <==> k in last.flat;
    hide *;
    if k !in last.flat && LastWith(entries, k).Some? && LastWith(entries, k).value.name !in {last.path, last.name} {
      LastWithout(entries, {last.path, last.name}, k);
    }
  }

  lemma DistinctPrefix(ws: seq<Writing>, n: nat)
    requires DistinctFiles(ws) && n < |ws| - 1
    ensures DistinctFiles(ws[..|ws| - 1]) && ws[n].name !in {ws[|ws| - 1].path, ws[|ws| - 1].name}
    ensures forall i :: 0 <= i < |ws| - 1 ==> ws[..|ws| - 1][i] == ws[i]
  {
    assert forall i :: 0 <= i < |ws| - 1 ==> ws[..|ws| - 1][i] == ws[i];
  }

  lemma LastRecorded(prev: Option<Record>, ws: seq<Writing>, wanted: Option<set<Key>>, space: Option<string>,
                     digestOf: string -> string)
    requires ws != []
    ensures var last := ws[|ws| - 1];
            var before := RecordedAll(prev, ws[..|ws| - 1], wanted, space, digestOf);
            var after := RecordedAll(prev, ws, wanted, space, digestOf);
            after.Some? && EntriesOf(after)
            == Without(EntriesOf(before), {last.path, last.name}) + [NamedEntry(last.name, EntryOf(last, digestOf))]
  {
  }

  lemma RecordSaysIt(prev: Option<Record>, ws: seq<Writing>, wanted: Option<set<Key>>, space: Option<string>,
                     digestOf: string -> string, n: nat, k: Key)
    requires DistinctFiles(ws) && n < |ws| && k in ws[n].flat
    requires forall m :: n < m < |ws| ==> k !in ws[m].flat
    ensures var r := RecordedAll(prev, ws, wanted, space, digestOf);
            r.Some? && k in r.value.desired
            && KeptAs(ws[n], digestOf, k, r.value.desired[k], Get(r.value.digests, k))
  {
    LastWritingIsKept(prev, ws, wanted, space, digestOf, n, k);
    var r := RecordedAll(prev, ws, wanted, space, digestOf).value;
    LastFileWins(EntriesOf(Some(r)), k);
    assert r.desired == LastDesired(EntriesOf(Some(r))) && r.digests == LastDigests(EntriesOf(Some(r)));
  }

  /** A key kept for a later try keeps the value and digest it had, as long as it is pending. */
  lemma PendingKeepsValue(prev: Record, w: Writing, wanted: Option<set<Key>>, space: Option<string>,
                          digestOf: string -> string, k: Key, value: string, digest: Option<string>)
    requires WellFormed(prev) && Keeps(prev, k, value, digest)
    requires k in Recorded(Some(prev), w, wanted, space, digestOf).pending
    ensures Keeps(Recorded(Some(prev), w, wanted, space, digestOf), k, value, digest)
  {
  }

  /** me's record was made by a sync whose n-th file is the last that put the key there. */
  ghost predicate LastPutBy(db: Db, me: Target, prev: Option<Record>, was: seq<Writing>, wanted: Option<set<Key>>,
                            space: Option<string>, digestOf: string -> string, n: nat, k: Key)
  {
    && me in db && DistinctFiles(was)
    && RecordedAll(prev, was, wanted, space, digestOf) == Some(db[me])
    && n < |was| && k in was[n].flat
    && forall m :: n < m < |was| ==> k !in was[m].flat
  }

  lemma RecordKeepsIt(db: Db, me: Target, prev: Option<Record>, was: seq<Writing>, wanted: Option<set<Key>>,
                      space: Option<string>, digestOf: string -> string, n: nat, k: Key)
    returns (value: string, digest: Option<string>)
    requires LastPutBy(db, me, prev, was, wanted, space, digestOf, n, k)
    ensures Knows(db[me], k) && Keeps(db[me], k, value, digest) && KeptAs(was[n], digestOf, k, value, digest)
  {
    RecordSaysIt(prev, was, wanted, space, digestOf, n, k);
    value, digest := db[me].desired[k], Get(db[me].digests, k);
  }

  /** Text is what the file put there; of a secret, as far as its digest tells. */
  predicate IsText(w: Writing, digestOf: string -> string, k: Key, text: string)
    requires k in w.flat
  {
    if k in w.secrets then digestOf(text) == digestOf(w.flat[k]) else text == w.flat[k]
  }

  lemma KeptTextIsText(w: Writing, digestOf: string -> string, k: Key, value: string, digest: Option<string>,
                       text: string)
    requires k in w.flat && KeptAs(w, digestOf, k, value, digest)
    ensures IsWritten(digestOf, text, value, digest) <==> IsText(w, digestOf, k, text)
  {
  }

  /**
   The whole way round: a key the sink shows is varTrack's own to the next prune that goes for it, and is
   passed to delete_keys, exactly when it is shown as the last file with it wrote it; otherwise it is reported
   as changed, and left.
   */
  lemma WrittenKeyIsDeleted(w: World, cls: string, rule: Rule, cfg: PruneConfig, db: Db, me: Target,
                            ws: seq<Writing>, live: map<Key, Live>, answer: DeleteAnswer, o: PruneOutcome,
                            calls: seq<DeleteCall>, prev: Option<Record>, was: seq<Writing>, wanted: Option<set<Key>>,
                            space: Option<string>, n: nat, k: Key)
    requires Decides(w, cls, rule, cfg, db, me, ws, live, answer, o, calls)
    requires k in Candidates(w, cls, rule, cfg, db, me, ws)
    requires LastPutBy(db, me, prev, was, wanted, space, w.digestOf, n, k)
    requires k in live && live[k].Readable?
    ensures k in AllKeys(calls) <==> IsText(was[n], w.digestOf, k, live[k].text)
    ensures k in KeySet(o.skipped) <==> !IsText(was[n], w.digestOf, k, live[k].text)
  {
    var value, digest := RecordKeepsIt(db, me, prev, was, wanted, space, w.digestOf, n, k);
    KeptTextIsText(was[n], w.digestOf, k, value, digest, live[k].text);
    hide Decides, Candidates, AllKeys, Keeps, Knows, KeptAs, IsText, IsWritten, RecordedAll;
    DecidedByValue(w, cls, rule, cfg, db, me, ws, live, answer, o, calls, k, value, digest);
  }
}
