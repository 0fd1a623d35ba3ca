/** Deleting an environment's stale keys after a sync (stage_sync._prune_environment). */
module Prune {
  import opened Options
  import opened Settings
  import opened Ledger
  import opened Ordering
  import opened KeySpaces
  import opened PruneConfigs
  import opened Sinks

  /** Whether a protection pattern of the rule covers the key. */
  predicate Protected(w: World, cfg: PruneConfig, k: Key) {
    exists p :: p in cfg.protection && p.Str? && w.matches(k, p.s)
  }

  function Unprotected(w: World, cfg: PruneConfig, keys: set<Key>): set<Key> {
    set k | k in keys && !Protected(w, cfg, k)
  }

  /** One stale key against what the sink holds. A key whose written value is unknown counts as changed. */
  function StaleState(w: World, expected: Expected, live: Option<Live>): KeyState {
    if expected.value == None then Drifted else StateOf(w.digestOf, expected.value.value, live, expected.digest)
  }

  function InState(w: World, expected: map<Key, Expected>, live: map<Key, Live>, states: set<KeyState>): set<Key> {
    set k | k in expected && StaleState(w, expected[k], Get(live, k)) in states
  }

  datatype PruneOutcome = PruneOutcome(
    pruned: nat,
    pending: seq<Key>,
    skipped: seq<Key>,
    wouldDelete: seq<Key>,
    error: string,
    sharedWith: set<Target>)

  /** `sorted(keys)` of a set. */
  method Sorted(keys: set<Key>) returns (r: seq<Key>)
    ensures StrictlySorted(r) && KeySet(r) == keys
  {
    r := [];
    var todo := keys;
    while todo != {}
      invariant todo <= keys && StrictlySorted(r) && KeySet(r) == keys - todo
    {
      var k :| k in todo;
      InsertSorted(k, r);
      ghost var before := KeySet(r);
      r := Insert(k, r);
      assert KeySet(r) == before + {k};
      todo := todo - {k};
    }
  }

  lemma AppendSorted(s: seq<Key>, x: Key)
    requires StrictlySorted(s) && forall y :: y in KeySet(s) ==> Less(y, x)
    ensures StrictlySorted(s + [x]) && KeySet(s + [x]) == KeySet(s) + {x}
  {
    forall i | 0 <= i < |s| ensures Less(s[i], x) {
      assert s[i] in KeySet(s);
    }
  }

  lemma OneMoreKey(keys: seq<Key>, i: nat)
    requires StrictlySorted(keys) && i < |keys|
    ensures KeySet(keys[..i + 1]) == KeySet(keys[..i]) + {keys[i]}
    ensures keys[i] in KeySet(keys) && keys[i] !in KeySet(keys[..i])
    ensures forall y :: y in KeySet(keys[..i]) ==> Less(y, keys[i])
  {
    assert keys[..i + 1] == keys[..i] + [keys[i]];
    LessIrreflexive(keys[i]);
    forall y | y in KeySet(keys[..i]) ensures Less(y, keys[i]) {
      var j :| 0 <= j < i && keys[..i][j] == y;
    }
  }

  /** Going through the keys in order: what is varTrack's is deleted, what something else changed is reported. */
  method Decide(w: World, keys: seq<Key>, expected: map<Key, Expected>, live: map<Key, Live>)
    returns (toDelete: seq<Key>, skipped: seq<Key>)
    requires StrictlySorted(keys) && KeySet(keys) == expected.Keys
    ensures StrictlySorted(toDelete) && KeySet(toDelete) == InState(w, expected, live, {Synced, Hidden})
    ensures StrictlySorted(skipped) && KeySet(skipped) == InState(w, expected, live, {Drifted})
  {
    toDelete, skipped := [], [];
    for i := 0 to |keys|
      invariant StrictlySorted(toDelete) && StrictlySorted(skipped)
      invariant KeySet(toDelete) == KeySet(keys[..i]) * InState(w, expected, live, {Synced, Hidden})
      invariant KeySet(skipped) == KeySet(keys[..i]) * InState(w, expected, live, {Drifted})
    {
      var key := keys[i];
      OneMoreKey(keys, i);
      var state := StaleState(w, expected[key], Get(live, key));
      if state == Drifted {
        AppendSorted(skipped, key);
        skipped := skipped + [key];
      } else if state != Missing {
        AppendSorted(toDelete, key);
        toDelete := toDelete + [key];
      }
    }
    assert keys[..|keys|] == keys;
  }

  /** Each of *stale* is in exactly one of the four places, once. */
  ghost predicate Accounted(stale: set<Key>, deleted: set<Key>, pending: seq<Key>, skipped: seq<Key>, gone: set<Key>) {
    && StrictlySorted(pending) && StrictlySorted(skipped)
    && stale == deleted + KeySet(pending) + KeySet(skipped) + gone
    && deleted !! KeySet(pending) !! KeySet(skipped) !! gone
  }

  /** The keys a prune of *me* goes for, before it reads the sink. */
  function Candidates(w: World, cls: string, rule: Rule, cfg: PruneConfig, db: Db, me: Target, ws: seq<Writing>):
    set<Key>
  {
    Unprotected(w, cfg, StaleKeys(w, cls, rule, db, me, ws))
  }

  /** What was last written for each of them. */
  function ExpectedValues(w: World, cls: string, rule: Rule, cfg: PruneConfig, db: Db, me: Target, ws: seq<Writing>):
    map<Key, Expected>
    requires CanLookUp(Get(db, me), StaleKeys(w, cls, rule, db, me, ws))
  {
    map k | k in Candidates(w, cls, rule, cfg, db, me, ws) :: ExpectedOf(db[me], k)
  }

  /** Whether a prune gets to look at the keys at all. */
  predicate Prunes(w: World, cls: string, rule: Rule, cfg: PruneConfig, db: Option<Db>, me: Target, ws: seq<Writing>) {
    && cfg.enabled
    && w.prunesKeys(cls, rule)
    && db.Some?
    && CanLookUp(Get(db.value, me), StaleKeys(w, cls, rule, db.value, me, ws))
  }

  /** A prune that stops before it decides: every candidate stays pending. */
  ghost predicate HeldBack(stale: set<Key>, dryRun: bool, o: PruneOutcome) {
    && Accounted(stale, {}, o.pending, o.skipped, {})
    && o.skipped == [] && o.pruned == 0 && o.error == ""
    && o.wouldDelete == (if dryRun then o.pending else [])
  }

  /** The calls of delete_keys a prune makes: none, or one with exactly the keys that are varTrack's. */
  ghost predicate CallsFor(env: string, mine: set<Key>, calls: seq<DeleteCall>) {
    if mine == {} then calls == [] else |calls| == 1 && calls[0].env == env && KeySet(calls[0].keys) == mine
  }

  /** A prune that decides. A delete that raises leaves all its keys pending, whichever of them are gone. */
  ghost predicate CarriedOut(w: World, env: string, expected: map<Key, Expected>, live: map<Key, Live>,
                             answer: DeleteAnswer, o: PruneOutcome, calls: seq<DeleteCall>)
  {
    var mine := InState(w, expected, live, {Synced, Hidden});
    var failed := mine != {} && answer.DeleteRaises?;
    && CallsFor(env, mine, calls)
    && KeySet(o.pending) == (if failed then mine else {})
    && KeySet(o.skipped) == InState(w, expected, live, {Drifted})
    && Accounted(expected.Keys, if failed
        then {} else mine, o.pending, o.skipped, InState(w, expected, live, {Missing}))
    && o.wouldDelete == []
    && o.error == (if failed then answer.message else "")
    && o.pruned == (if mine != {} && answer.Deleted? then answer.count else 0)
  }

  /** Everything a prune of *me* does and reports. */
  ghost predicate OutcomeOf(w: World, cls: string, rule: Rule, cfg: PruneConfig, db: Option<Db>, me: Target,
                            ws: seq<Writing>, live: Option<map<Key, Live>>, answer: DeleteAnswer,
                            outcome: Option<PruneOutcome>, calls: seq<DeleteCall>)
  {
    && (outcome.Some? <==> Prunes(w, cls, rule, cfg, db, me, ws))
    && (outcome.None? ==> calls == [])
    && (outcome.Some? ==> outcome.value.sharedWith == Holders(db.value, Sharers(w, cls, rule, db.value, me)))
    && (outcome.Some? && (cfg.dryRun || live == None) ==>
          calls == [] && HeldBack(Candidates(w, cls, rule, cfg, db.value, me, ws), cfg.dryRun, outcome.value))
    && (outcome.Some? && !cfg.dryRun && live.Some? ==>
          CarriedOut(w, me.env, ExpectedValues(w, cls, rule, cfg, db.value, me, ws), live.value, answer, outcome.value,
                     calls))
  }

  /** The keys a prune of *me* passes to delete_keys. */
  function Mine(w: World, cls: string, rule: Rule, cfg: PruneConfig, db: Option<Db>, me: Target, ws: seq<Writing>,
                live: Option<map<Key, Live>>): set<Key>
  {
    if Prunes(w, cls, rule, cfg, db, me, ws) && !cfg.dryRun && live.Some? then
      InState(w, ExpectedValues(w, cls, rule, cfg, db.value, me, ws), live.value, {Synced, Hidden})
    else {}
  }

  /** What a delete of *mine* takes out of the environment. */
  function Removed(mine: set<Key>, answer: DeleteAnswer): set<Key> {
    if answer.Deleted? then mine else mine * answer.gone
  }

  lemma NothingRemoved(layout: Layout, store: Store, env: string, answer: DeleteAnswer)
    ensures RemoveKeys(layout, store, env, Removed({}, answer)) == store
  {
    assert Removed({}, answer) == {};
    RemovingNothing(layout, store, env);
  }

  lemma EveryStateIsOnePlace(w: World, expected: map<Key, Expected>, live: map<Key, Live>)
    ensures var mine, changed, gone := InState(w, expected, live, {Synced, Hidden}),
              InState(w, expected, live, {Drifted}),
                                       InState(w, expected, live, {Missing});
            expected.Keys == mine + changed + gone && mine !! changed !! gone
  {
  }

  /** Reading back is done: decide key by key, then delete once. */
  method DeleteOwn(w: World, sink: Sink, env: string, keys: seq<Key>, expected: map<Key, Expected>,
                   live: map<Key, Live>, answer: DeleteAnswer, sharers: set<Target>)
    returns (o: PruneOutcome)
    requires StrictlySorted(keys) && KeySet(keys) == expected.Keys
    modifies sink`store, sink`deletes
    ensures o.sharedWith == sharers
    ensures old(sink.deletes) <= sink.deletes
    ensures CarriedOut(w, env, expected, live, answer, o, sink.deletes[|old(sink.deletes)|..])
    ensures sink.store == RemoveKeys(sink.layout, old(sink.store), env,
                                     Removed(InState(w, expected, live, {Synced, Hidden}), answer))
  {
    var toDelete, skipped := Decide(w, keys, expected, live);
    EveryStateIsOnePlace(w, expected, live);
    assert toDelete != [] ==> toDelete[0] in KeySet(toDelete);
    NothingRemoved(sink.layout, sink.store, env, answer);
    if toDelete == [] {
      return PruneOutcome(0, [], skipped, [], "", sharers);
    }
    var ok := sink.DeleteKeys(env, toDelete, answer);
    if ok {
      o := PruneOutcome(answer.count, [], skipped, [], "", sharers);
    } else {
      o := PruneOutcome(0, toDelete, skipped, [], answer.message, sharers);
    }
  }

  /** The stale keys that no protection pattern covers, with what was last written for each. */
  method FindCandidates(w: World, cls: string, rule: Rule, cfg: PruneConfig, db: Option<Db>, me: Target,
                        ws: seq<Writing>)
    returns (found: Option<map<Key, Expected>>, sharers: set<Target>)
    ensures found.Some? <==> Prunes(w, cls, rule, cfg, db, me, ws)
    ensures found.Some? ==> found.value == ExpectedValues(w, cls, rule, cfg, db.value, me, ws)
    ensures found.Some? ==> found.value.Keys == Candidates(w, cls, rule, cfg, db.value, me, ws)
    ensures found.Some? ==> sharers == Holders(db.value, Sharers(w, cls, rule, db.value, me))
  {
    if !cfg.enabled || !w.prunesKeys(cls, rule) || db.None? {
      return None, {};
    }
    var stale;
    stale, sharers := FindStaleKeys(w, cls, rule, db.value, me, ws);
    if stale.Failed? {
      return None, {};
    }
    found := Some(map k | k in Unprotected(w, cfg, stale.value.Keys) :: stale.value[k]);
  }

  lemma NotPruned(w: World, cls: string, rule: Rule, cfg: PruneConfig, db: Option<Db>, me: Target, ws: seq<Writing>,
                  live: Option<map<Key, Live>>, answer: DeleteAnswer)
    requires !Prunes(w, cls, rule, cfg, db, me, ws)
    ensures OutcomeOf(w, cls, rule, cfg, db, me, ws, live, answer, None, [])
    ensures Mine(w, cls, rule, cfg, db, me, ws, live) == {}
  {
  }

  /** A dry run, a sink that cannot be read back, or nothing stale: no call, and every candidate is pending. */
  lemma NothingDecided(w: World, cls: string, rule: Rule, cfg: PruneConfig, db: Option<Db>, me: Target,
                       ws: seq<Writing>, live: Option<map<Key, Live>>, answer: DeleteAnswer, keys: seq<Key>)
    requires Prunes(w, cls, rule, cfg, db, me, ws)
    requires StrictlySorted(keys) && KeySet(keys) == Candidates(w, cls, rule, cfg, db.value, me, ws)
    requires cfg.dryRun || live == None || keys == []
    ensures var o := PruneOutcome(0, keys, [], if cfg.dryRun
              then keys else [], "", Holders(db.value, Sharers(w, cls, rule, db.value, me)));
            OutcomeOf(w, cls, rule, cfg, db, me, ws, live, answer, Some(o), [])
    ensures Mine(w, cls, rule, cfg, db, me, ws, live) == {}
  {
    hide Candidates, Sharers, Holders, StaleKeys, CanLookUp, StaleState;
    if !cfg.dryRun && live.Some? {
      var expected := ExpectedValues(w, cls, rule, cfg, db.value, me, ws);
      assert expected.Keys == {};
      assert forall states :: InState(w, expected, live.value, states) == {};
    }
  }

  lemma Decided(w: World, cls: string, rule: Rule, cfg: PruneConfig, db: Option<Db>, me: Target, ws: seq<Writing>,
                live: Option<map<Key, Live>>, answer: DeleteAnswer, o: PruneOutcome, calls: seq<DeleteCall>)
    requires Prunes(w, cls, rule, cfg, db, me, ws) && !cfg.dryRun && live.Some?
    requires CarriedOut(w, me.env, ExpectedValues(w, cls, rule, cfg, db.value, me, ws), live.value, answer, o, calls)
    requires o.sharedWith == Holders(db.value, Sharers(w, cls, rule, db.value, me))
    ensures OutcomeOf(w, cls, rule, cfg, db, me, ws, live, answer, Some(o), calls)
    ensures Mine(w, cls, rule, cfg, db, me, ws, live)
         == InState(w, ExpectedValues(w, cls, rule, cfg, db.value, me, ws), live.value, {Synced, Hidden})
  {
    hide CarriedOut, Candidates, Sharers, Holders, StaleKeys, CanLookUp, InState;
  }

  /**
   _prune_environment. *db* is the ledger (None: it cannot be read), *live* what the sink reads back
   (None: the read raises), *answer* what delete_keys does if it is called.
   */
  method PruneEnvironment(w: World, sink: Sink, rule: Rule, cfg: PruneConfig, db: Option<Db>, me: Target,
                          ws: seq<Writing>, live: Option<map<Key, Live>>, answer: DeleteAnswer)
    returns (outcome: Option<PruneOutcome>)
    modifies sink
    ensures sink.strictReads ==> old(sink.strictReads)
    ensures old(sink.deletes) <= sink.deletes
    ensures OutcomeOf(w, sink.cls, rule, cfg, db, me, ws, live, answer, outcome, sink.deletes[|old(sink.deletes)|..])
    ensures sink.store == RemoveKeys(sink.layout, old(sink.store), me.env,
                                     Removed(Mine(w, sink.cls, rule, cfg, db, me, ws, live), answer))
  {
    NothingRemoved(sink.layout, sink.store, me.env, answer);
    hide OutcomeOf, Mine, Prunes, ExpectedValues, Candidates, CarriedOut, InState, Sharers, Holders, Removed,
        RemoveKeys;
    assert sink.deletes[|sink.deletes|..] == [];
    var candidates, sharers := FindCandidates(w, sink.cls, rule, cfg, db, me, ws);
    if candidates == None {
      NotPruned(w, sink.cls, rule, cfg, db, me, ws, live, answer);
      return None;
    }
    var expected := candidates.value;
    if expected == map[] {
      NothingDecided(w, sink.cls, rule, cfg, db, me, ws, live, answer, []);
      return Some(PruneOutcome(0, [], [], [], "", sharers));
    }
    var keys := Sorted(expected.Keys);
    if cfg.dryRun {
      NothingDecided(w, sink.cls, rule, cfg, db, me, ws, live, answer, keys);
      return Some(PruneOutcome(0, keys, [], keys, "", sharers));
    }
    sink.strictReads := true;
    var readable := live.Some?;
    sink.strictReads := false;
    if !readable {
      NothingDecided(w, sink.cls, rule, cfg, db, me, ws, live, answer, keys);
      return Some(PruneOutcome(0, keys, [], [], "", sharers));
    }
    var o := DeleteOwn(w, sink, me.env, keys, expected, live.value, answer, sharers);
    Decided(w, sink.cls, rule, cfg, db, me, ws, live, answer, o, sink.deletes[|old(sink.deletes)|..]);
    outcome := Some(o);
  }
}
