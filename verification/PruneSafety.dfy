/** What a prune may delete, and exactly whose keys it leaves alone. */
module PruneSafety {
  import opened Options
  import opened Settings
  import opened Ledger
  import opened KeySpaces
  import opened PruneConfigs
  import opened Sinks
  import opened Prune

  /** A record kept by record_target never makes prune fail on a stale key it cannot look up. */
  lemma StaleKeysCanBeLookedUp(w: World, cls: string, rule: Rule, db: Db, me: Target, ws: seq<Writing>)
    requires me in db ==> WellFormed(db[me])
    ensures CanLookUp(Get(db, me), StaleKeys(w, cls, rule, db, me, ws))
  {
  }

  /** Every key passed to delete_keys: what it must be, and what it must not be. */
  lemma DeletedKeyIsOwnStaleAndFree(w: World, cls: string, rule: Rule, cfg: PruneConfig, db: Db, me: Target,
                                    ws: seq<Writing>, live: Option<map<Key, Live>>, k: Key, other: Target)
    requires k in Mine(w, cls, rule, cfg, Some(db), me, ws, live)
    ensures me in db && (k in Listed(db, me) || k in db[me].pending)
    ensures k !in KeptKeys(db, me, ws) && k !in WrittenKeys(ws)
    ensures !exists p :: p in cfg.protection && p.Str? && w.matches(k, p.s)
    ensures live.Some? && StaleState(w, ExpectedOf(db[me], k), Get(live.value, k)) in {Synced, Hidden}
    // another environment of the datasource that the rule places in the same space
    ensures other in db && other != me && SameDatasource(me, other)
            && KeySpaceId(w, cls, rule, me.tenant, other.env) == KeySpaceId(w, cls, rule, me.tenant, me.env)
            ==> k !in Listed(db, other)
    // a target recorded in the same space
    ensures other in db && !SameDatasource(me, other) && Visible(w, me.tenant, other)
            && db[other].keySpace == Some(KeySpaceId(w, cls, rule, me.tenant, me.env))
            ==> k !in Listed(db, other)
    // a target without a recorded space that its rule places there
    ensures other in db && !SameDatasource(me, other) && Visible(w, me.tenant, other) && IsLegacy(w, cls, db, other)
            && PlacedIn(w, cls, KeySpaceId(w, cls, rule, me.tenant, me.env), w.rules, other)
            ==> k !in Listed(db, other)
  {
    assert k in StaleKeys(w, cls, rule, db, me, ws);
    if other in db && Spares(w, cls, rule, db, me, other) {
      assert other in Spared(w, cls, rule, db, me);
    }
  }

  /** Every target of another datasource or tenant whose keys a prune spares is reported, and no other. */
  lemma SharersAreReported(w: World, cls: string, rule: Rule, cfg: PruneConfig, db: Db, me: Target, ws: seq<Writing>,
                           live: Option<map<Key, Live>>, answer: DeleteAnswer, o: PruneOutcome,
                           calls: seq<DeleteCall>, t: Target)
    requires OutcomeOf(w, cls, rule, cfg, Some(db), me, ws, live, answer, Some(o), calls)
    ensures t in o.sharedWith <==>
            && (t.tenant != me.tenant || t.datasource != me.datasource) && Listed(db, t) != {}
            && HoldsElsewhere(w, cls, KeySpaceId(w, cls, rule, me.tenant, me.env), db, me.tenant, t)
  {
    assert o.sharedWith == Holders(db, Sharers(w, cls, rule, db, me));
    hide OutcomeOf, Listed, HoldsElsewhere;
  }

  /** A rule that says so, in any form, deletes nothing: pruning off, or only reporting. */
  lemma SwitchedOffDeletesNothing(w: World, cls: string, rule: Rule, db: Option<Db>, me: Target, ws: seq<Writing>,
                                  live: Option<map<Key, Live>>)
    requires || "prune" !in rule
             || rule["prune"] == Settings.Bool(false)
             || (rule["prune"].Obj?
                 && (Get(rule["prune"].fields, "enabled") == Some(Settings.Bool(false))
                     || Get(rule["prune"].fields, "dry_run") == Some(Settings.Bool(true))))
    ensures Mine(w, cls, rule, ExtractPruneConfig(rule), db, me, ws, live) == {}
  {
    EnabledMeans(rule);
    DryRunMeans(rule);
  }

  // -- Whose keys are safe ------------------------------------------------------

  /**
   Whether a prune of *me* takes notice of the keys that t's record lists in me's key space: another
   environment of the same datasource counts by where the rule places it now, any other target only
   when its tenant is me's own or registered.
   */
  predicate Notices(w: World, cls: string, rule: Rule, me: Target, t: Target) {
    if SameDatasource(me, t) then
      KeySpaceId(w, cls, rule, me.tenant, t.env) == KeySpaceId(w, cls, rule, me.tenant, me.env)
    else Visible(w, me.tenant, t)
  }

  /** So an unregistered tenant is missed, a registered one is noticed, and so is another datasource of one's own. */
  lemma NoticedTenants(w: World, cls: string, rule: Rule, me: Target, t: Target)
    requires t.tenant != me.tenant || t.datasource != me.datasource
    ensures t.tenant in w.tenants ==> Notices(w, cls, rule, me, t)
    ensures t.tenant == me.tenant ==> Notices(w, cls, rule, me, t)
    ensures t.tenant !in w.tenants && t.tenant != me.tenant ==> !Notices(w, cls, rule, me, t)
  {
  }

  /** t's record says it put k into *space*. */
  ghost predicate ListsIn(db: Db, t: Target, space: string, k: Key) {
    t in db && db[t].keySpace == Some(space) && k in Listed(db, t)
  }

  ghost predicate GoodLedger(db: Db) {
    forall t :: t in db ==> WellFormed(db[t]) && ValuesKnown(db[t])
  }

  ghost predicate AllReceived(ws: seq<Writing>) {
    ws != [] && forall i :: 0 <= i < |ws| ==> Received(ws[i])
  }

  /** A record of the file "r:f" holding one key. */
  function OneKeyRecord(k: Key, space: string): Record {
    Record(ByFile([NamedEntry(NameOf("r", "f"), Entry(map[k := "1"], map[]))]), map[k := "1"], map[], map[],
           Some(space))
  }

  lemma OneKeyRecordIsGood(k: Key, space: string)
    ensures WellFormed(OneKeyRecord(k, space)) && ValuesKnown(OneKeyRecord(k, space))
    ensures Inventory(EntriesOf(Some(OneKeyRecord(k, space)))) == {k}
  {
    var entries := [NamedEntry(NameOf("r", "f"), Entry(map[k := "1"], map[]))];
    assert k in entries[0].entry.desired;
  }

  /** The file written again without k, with another key in its place. */
  function RewriteWithout(k: Key): Writing {
    Writing(NameOf("r", "f"), "f", map[k + "'" := "1"], {})
  }

  /** Both targets list k in one space; the file of the one being pruned no longer has it. */
  lemma UnnoticedKeyGoesStale(w: World, cls: string, rule: Rule, me: Target, t: Target, k: Key)
    requires t != me && !Notices(w, cls, rule, me, t)
    ensures var space := KeySpaceId(w, cls, rule, me.tenant, me.env);
            var db := map[me := OneKeyRecord(k, space), t := OneKeyRecord(k, space)];
            var ws := [RewriteWithout(k)];
            GoodLedger(db) && ListsIn(db, t, space, k) && AllReceived(ws) && k in StaleKeys(w, cls, rule, db, me, ws)
  {
    var space := KeySpaceId(w, cls, rule, me.tenant, me.env);
    var db := map[me := OneKeyRecord(k, space), t := OneKeyRecord(k, space)];
    var ws := [RewriteWithout(k)];
    OneKeyRecordIsGood(k, space);
    assert k + "'" in ws[0].flat && ws[0].name == NameOf("r", ws[0].path);
    assert Received(ws[0]);
    assert k !in WrittenKeys(ws) by {
      assert |k + "'"| != |k|;
    }
    assert NameOf("r", "f") in Rewritten(ws) by {
      assert ws[0].name == NameOf("r", "f");
    }
    assert KeptKeys(db, me, ws) == {} by {
      assert EntriesOf(Get(db, me))[0].name in Rewritten(ws);
      assert Without(EntriesOf(Get(db, me)), Rewritten(ws)) == [];
    }
    assert Spared(w, cls, rule, db, me) <= {me};
    assert KeysOf(db, Spared(w, cls, rule, db, me)) == {} by {
      assert me !in Spared(w, cls, rule, db, me);
    }
  }

  /**
   The keys another target's record lists in the key space being pruned are never stale there, whatever the
   sync writes, exactly when the prune notices that target. The two ways to be missed: the rule now puts an
   environment of the same datasource elsewhere than where its record says it wrote; the other tenant is
   not registered.
   */
  lemma KeysAreSafeExactlyWhenNoticed(w: World, cls: string, rule: Rule, me: Target, t: Target)
    requires t != me
    ensures Notices(w, cls, rule, me, t) <==>
            forall db, ws, k ::
              GoodLedger(db) && AllReceived(ws) && ListsIn(db, t, KeySpaceId(w, cls, rule, me.tenant, me.env), k)
              ==> k !in StaleKeys(w, cls, rule, db, me, ws)
  {
    var space := KeySpaceId(w, cls, rule, me.tenant, me.env);
    if Notices(w, cls, rule, me, t) {
      forall db, ws, k | GoodLedger(db) && ListsIn(db, t, space, k)
        ensures k !in StaleKeys(w, cls, rule, db, me, ws)
      {
        assert t in Spared(w, cls, rule, db, me);
      }
    } else {
      UnnoticedKeyGoesStale(w, cls, rule, me, t, "k");
    }
  }

  // -- No key is forgotten ------------------------------------------------------

  /**
   A key varTrack answered for before a sync whose prune ran is still its to answer for afterwards, listed
   or pending, unless it was deleted, is missing, was changed and reported, is protected, or is another's.
   */
  lemma NothingIsForgotten(w: World, cls: string, rule: Rule, cfg: PruneConfig, db: Db, me: Target, ws: seq<Writing>,
                           live: Option<map<Key, Live>>, answer: DeleteAnswer, o: PruneOutcome,
                           calls: seq<DeleteCall>, space: string, k: Key)
    requires OutcomeOf(w, cls, rule, cfg, Some(db), me, ws, live, answer, Some(o), calls)
    requires me in db && WellFormed(db[me]) && DistinctFiles(ws) && ws != []
    requires k in Owned(Get(db, me))
    ensures k in db[me].desired || k in db[me].pending
    ensures || k in Owned(RecordedAll(Get(db, me), ws, Some(KeySet(o.pending)), Some(space), w.digestOf))
            || Protected(w, cfg, k)
            || k in KeysOf(db, Spared(w, cls, rule, db, me))
            || (answer.Deleted? && k in Mine(w, cls, rule, cfg, Some(db), me, ws, live))
            || k in KeySet(o.skipped)
            || (live.Some? && StaleState(w, ExpectedOf(db[me], k), Get(live.value, k)) == Missing)
  {
    var candidates := Candidates(w, cls, rule, cfg, db, me, ws);
    assert KeySet(o.pending) <= candidates <= Owned(Get(db, me));
    RecordedInventory(Get(db, me), ws, Some(KeySet(o.pending)), Some(space), w.digestOf);
    PendingIsExactlyWanted(Get(db, me), ws, KeySet(o.pending), Some(space), w.digestOf);
    if k in candidates && live.Some? && !cfg.dryRun {
      var expected := ExpectedValues(w, cls, rule, cfg, db, me, ws);
      EveryStateIsOnePlace(w, expected, live.value);
      assert expected[k] == ExpectedOf(db[me], k);
    }
  }
}
