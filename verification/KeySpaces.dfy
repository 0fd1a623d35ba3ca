/**
 Who else holds keys where a sync is about to prune (stage_sync: key_space_id, _keys_held_elsewhere,
 _keys_held_by_rules, _stale_keys).
 */
module KeySpaces {
  import opened Options
  import opened Ledger
  import opened Settings

  /** A tenant's rule as the fan-out over every tenant's rules lists it. */
  datatype TenantRule = TenantRule(tenant: string, datasource: string, rule: Rule)

  /**
   What stage_sync asks of the rest of the program: which sink class serves a datasource, what the
   class says about a rule (does it delete single keys, in which store, in which key space), the
   registered tenants, every tenant's rules, the digest, and the glob matcher.
   */
  datatype World = World(
    sinkClass: string -> Option<string>,
    prunesKeys: (string, Rule) -> bool,
    store: (string, Rule) -> string,
    keySpace: (string, Rule, string, string) -> string,
    tenants: set<string>,
    rules: seq<TenantRule>,
    digestOf: string -> string,
    matches: (string, string) -> bool)

  /** key_space_id: empty for a sink that does not delete single keys. */
  function KeySpaceId(w: World, cls: string, rule: Rule, tenant: string, env: string): string {
    if !w.prunesKeys(cls, rule) then ""
    else cls + "|" + w.store(cls, rule) + "|" + w.keySpace(cls, rule, tenant, env)
  }

  lemma SplitAtBar(a: string, x: string, b: string, y: string)
    requires '|' !in a && '|' !in b && a + "|" + x == b + "|" + y
    ensures a == b && x == y
  {
    var s := a + "|" + x;
    assert forall i :: 0 <= i < |a| ==> s[i] == a[i] && a[i] in a;
    assert forall i :: 0 <= i < |b| ==> s[i] == b[i] && b[i] in b;
    assert s[|a|] == '|' && s[|b|] == '|';
    assert a == s[..|a|] && b == s[..|b|] && x == s[|a| + 1..] && y == s[|b| + 1..];
  }

  /** Targets share a key space exactly when one class of sink keeps them in the same place of the same store. */
  lemma SpacesAreApart(w: World, cls: string, rule: Rule, tenant: string, env: string,
                       cls': string, rule': Rule, tenant': string, env': string)
    requires w.prunesKeys(cls, rule) && w.prunesKeys(cls', rule')
    requires '|' !in cls && '|' !in cls' && '|' !in w.store(cls, rule) && '|' !in w.store(cls', rule')
    ensures KeySpaceId(w, cls, rule, tenant, env) == KeySpaceId(w, cls', rule', tenant', env') <==>
            && cls == cls' && w.store(cls, rule) == w.store(cls', rule')
            && w.keySpace(cls, rule, tenant, env) == w.keySpace(cls', rule', tenant', env')
  {
    var x, y := w.store(cls, rule) + "|" + w.keySpace(cls, rule, tenant, env),
        w.store(cls', rule') + "|" + w.keySpace(cls', rule', tenant', env');
    assert KeySpaceId(w, cls, rule, tenant, env) == cls + "|" + x;
    assert KeySpaceId(w, cls', rule', tenant', env') == cls' + "|" + y;
    if cls + "|" + x == cls' + "|" + y {
      SplitAtBar(cls, x, cls', y);
      SplitAtBar(w.store(cls, rule), w.keySpace(cls, rule, tenant, env), w.store(cls', rule'),
                 w.keySpace(cls', rule', tenant', env'));
    }
  }

  /** And a sink that does not delete single keys has none. */
  lemma NoSpaceWithoutKeys(w: World, cls: string, rule: Rule, tenant: string, env: string)
    ensures KeySpaceId(w, cls, rule, tenant, env) == "" <==> !w.prunesKeys(cls, rule)
  {
    assert w.prunesKeys(cls, rule) ==> |KeySpaceId(w, cls, rule, tenant, env)| >= 2;
  }

  /** The keys a set of targets lists. */
  function KeysOf(db: Db, targets: set<Target>): set<Key> {
    set t, k | t in targets && k in Listed(db, t) :: k
  }

  // -- Which targets share a key space ------------------------------------------

  /** The rule that places a target whose record does not say where it wrote: the first listed for it. */
  function PlacingRule(rules: seq<TenantRule>, t: Target): Option<Rule> {
    if rules == [] then None
    else if rules[0].tenant == t.tenant && rules[0].datasource == t.datasource then Some(rules[0].rule)
    else PlacingRule(rules[1..], t)
  }

  /** The first of the rules listed for its tenant and datasource, and none when there is none. */
  lemma {:induction false} PlacingRuleIsFirst(rules: seq<TenantRule>, t: Target)
    ensures PlacingRule(rules, t).None? <==>
            forall i :: 0 <= i < |rules| ==> rules[i].tenant != t.tenant || rules[i].datasource != t.datasource
    ensures forall i :: 0 <= i < |rules| && rules[i].tenant == t.tenant && rules[i].datasource == t.datasource
                        && (forall j :: 0 <= j < i ==>
                              rules[j].tenant != t.tenant || rules[j].datasource != t.datasource)
                        ==> PlacingRule(rules, t) == Some(rules[i].rule)
  {
    if rules != [] {
      PlacingRuleIsFirst(rules[1..], t);
      assert forall i :: 0 < i < |rules| ==> rules[i] == rules[1..][i - 1];
    }
  }

  predicate PlacedIn(w: World, cls: string, space: string, rules: seq<TenantRule>, t: Target) {
    var placing := PlacingRule(rules, t);
    placing.Some? && KeySpaceId(w, cls, placing.value, t.tenant, t.env) == space
  }

  /** A target of the asking tenant or of a registered one: the only ones whose records are read. */
  predicate Visible(w: World, tenant: string, t: Target) {
    t.tenant == tenant || t.tenant in w.tenants
  }

  predicate IsLegacy(w: World, cls: string, db: Db, t: Target) {
    t in db && db[t].keySpace == None && w.sinkClass(t.datasource) == Some(cls)
  }

  /** A target outside the rule's own datasource that writes to *space*, by its record or, without one, by its rule. */
  predicate HoldsElsewhere(w: World, cls: string, space: string, db: Db, tenant: string, t: Target) {
    && t in db
    && Visible(w, tenant, t)
    && (db[t].keySpace == Some(space) || (IsLegacy(w, cls, db, t) && PlacedIn(w, cls, space, w.rules, t)))
  }

  /** An environment of the rule's own datasource that the rule places in *space*. */
  predicate SisterEnv(w: World, cls: string, space: string, rule: Rule, db: Db, me: Target, t: Target) {
    && t in db && t != me && t.tenant == me.tenant && t.datasource == me.datasource
    && KeySpaceId(w, cls, rule, me.tenant, t.env) == space
  }

  predicate SameDatasource(me: Target, t: Target) {
    t.tenant == me.tenant && t.datasource == me.datasource
  }

  /** Target t's keys are safe from a prune of *me*. */
  predicate Spares(w: World, cls: string, rule: Rule, db: Db, me: Target, t: Target) {
    var space := KeySpaceId(w, cls, rule, me.tenant, me.env);
    if SameDatasource(me, t) then SisterEnv(w, cls, space, rule, db, me, t)
    else HoldsElsewhere(w, cls, space, db, me.tenant, t)
  }

  // -- The loops that find them -------------------------------------------------

  /** The targets of *targets* that hold keys: what the shared-key-space warning names. */
  function Holders(db: Db, targets: set<Target>): set<Target> {
    set t | t in targets && Listed(db, t) != {}
  }

  /** The targets of one tenant and datasource the ledger lists. */
  function TargetsOf(db: Db, tenant: string, datasource: string): set<Target> {
    set t | t in db && t.tenant == tenant && t.datasource == datasource
  }

  lemma {:induction false} OneMoreRule(rules: seq<TenantRule>, r: TenantRule, t: Target)
    ensures PlacingRule(rules + [r], t) ==
            if PlacingRule(rules, t).Some? then PlacingRule(rules, t)
            else if r.tenant == t.tenant && r.datasource == t.datasource then Some(r.rule)
            else None
  {
    if rules == [] {
      assert rules + [r] == [r];
    } else {
      assert (rules + [r])[1..] == rules[1..] + [r];
      OneMoreRule(rules[1..], r, t);
    }
  }

  /** The targets of *legacy* that the rules place in *space*. */
  function PlacedTargets(w: World, cls: string, space: string, rules: seq<TenantRule>, legacy: set<Target>):
    set<Target>
  {
    set t | t in legacy && PlacedIn(w, cls, space, rules, t)
  }

  lemma KeysOfUnion(db: Db, a: set<Target>, b: set<Target>)
    ensures KeysOf(db, a + b) == KeysOf(db, a) + KeysOf(db, b)
    ensures Holders(db, a + b) == Holders(db, a) + Holders(db, b)
  {
  }

  lemma KeysOfOne(db: Db, t: Target)
    ensures KeysOf(db, {t}) == Listed(db, t)
    ensures Holders(db, {t}) == if Listed(db, t) != {} then {t} else {}
  {
  }

  /** Adding one target's keys to what is held so far. */
  method CountIn(db: Db, held: set<Key>, sharers: set<Target>, t: Target, ghost counted: set<Target>)
    returns (held': set<Key>, sharers': set<Target>)
    requires held == KeysOf(db, counted) && sharers == Holders(db, counted)
    ensures held' == KeysOf(db, counted + {t}) && sharers' == Holders(db, counted + {t})
  {
    KeysOfUnion(db, counted, {t});
    KeysOfOne(db, t);
    var keys := Listed(db, t);
    held' := held + keys;
    sharers' := if keys != {} then sharers + {t} else sharers;
  }

  /** The environments of one rule's datasource: each legacy one is counted once, by the first rule that names it. */
  method PlaceByRule(w: World, cls: string, space: string, db: Db, r: TenantRule, legacy: set<Target>,
                     seen: set<Target>)
    returns (held: set<Key>, sharers: set<Target>, seen': set<Target>)
    ensures var unseen := TargetsOf(db, r.tenant, r.datasource) * legacy - seen;
            var here := PlacedBy(w, cls, space, r, unseen);
            seen' == seen + unseen && held == KeysOf(db, here) && sharers == Holders(db, here)
  {
    held, sharers, seen' := {}, {}, seen;
    var todo := TargetsOf(db, r.tenant, r.datasource);
    ghost var all := todo;
    ghost var here: set<Target> := {};
    while todo != {}
      invariant todo <= all
      invariant seen' == seen + (all - todo) * legacy
      invariant here == PlacedBy(w, cls, space, r, (all - todo) * legacy - seen)
      invariant held == KeysOf(db, here) && sharers == Holders(db, here)
    {
      var t :| t in todo;
      todo := todo - {t};
      if t in legacy && t !in seen' {
        seen' := seen' + {t};
        if KeySpaceId(w, cls, r.rule, t.tenant, t.env) == space {
          held, sharers := CountIn(db, held, sharers, t, here);
          here := here + {t};
        }
      }
    }
    assert all - todo == all;
  }

  /** _keys_held_by_rules: the first rule that names a target's tenant and datasource places it. */
  method KeysHeldByRules(w: World, cls: string, space: string, db: Db, legacy: set<Target>, seen: set<Target>)
    returns (held: set<Key>, sharers: set<Target>)
    requires forall t :: t in legacy ==> IsLegacy(w, cls, db, t) && t !in seen
    ensures held == KeysOf(db, PlacedTargets(w, cls, space, w.rules, legacy))
    ensures sharers == Holders(db, PlacedTargets(w, cls, space, w.rules, legacy))
  {
    held, sharers := {}, {};
    var seen' := seen;
    assert PlacedTargets(w, cls, space, w.rules[..0], legacy) == {};
    ghost var placed: set<Target> := {};
    assert KeysOf(db, placed) == {} && Holders(db, placed) == {};
    hide KeySpaceId, PlacedTargets, KeysOf, Holders, IsLegacy;
    for i := 0 to |w.rules|
      invariant seen' == seen + NamedBy(w.rules[..i], legacy)
      invariant placed == PlacedTargets(w, cls, space, w.rules[..i], legacy)
      invariant held == KeysOf(db, placed) && sharers == Holders(db, placed)
    {
      var r := w.rules[i];
      assert w.rules[..i + 1] == w.rules[..i] + [r];
      OneMorePlaced(w, cls, space, db, w.rules[..i], r, legacy, seen);
      assert PlacedBy(w, cls, space, r, {}) == {};
      if w.sinkClass(r.datasource) == Some(cls) {
        ghost var here := PlacedBy(w, cls, space, r, TargetsOf(db, r.tenant, r.datasource) * legacy - seen');
        var keys, holders;
        keys, holders, seen' := PlaceByRule(w, cls, space, db, r, legacy, seen');
        KeysOfUnion(db, placed, here);
        held, sharers, placed := held + keys, sharers + holders, placed + here;
      }
    }
    assert w.rules[..|w.rules|] == w.rules;
  }

  /** Those of *unseen* that the rule puts in *space*. */
  function PlacedBy(w: World, cls: string, space: string, r: TenantRule, unseen: set<Target>): set<Target> {
    set t | t in unseen && KeySpaceId(w, cls, r.rule, t.tenant, t.env) == space
  }

  /** The targets of *legacy* that some rule names. */
  function NamedBy(rules: seq<TenantRule>, legacy: set<Target>): set<Target> {
    set t | t in legacy && PlacingRule(rules, t).Some?
  }

  lemma OneMorePlaced(w: World, cls: string, space: string, db: Db, rules: seq<TenantRule>, r: TenantRule,
                      legacy: set<Target>, seen: set<Target>)
    requires forall t :: t in legacy ==> IsLegacy(w, cls, db, t) && t !in seen
    ensures var unseen := TargetsOf(db, r.tenant, r.datasource) * legacy - (seen + NamedBy(rules, legacy));
            && PlacedTargets(w, cls, space, rules + [r], legacy)
                == PlacedTargets(w, cls, space, rules, legacy) + PlacedBy(w, cls, space, r, unseen)
            && NamedBy(rules + [r], legacy) == NamedBy(rules, legacy) + unseen
            && (w.sinkClass(r.datasource) != Some(cls) ==> unseen == {})
  {
    var unseen := TargetsOf(db, r.tenant, r.datasource) * legacy - (seen + NamedBy(rules, legacy));
    forall t | t in legacy
      ensures t in unseen <==> PlacingRule(rules, t).None? && t.tenant == r.tenant && t.datasource == r.datasource
      ensures PlacingRule(rules + [r], t) == if t in unseen then Some(r.rule) else PlacingRule(rules, t)
    {
      OneMoreRule(rules, r, t);
    }
  }

  function TenantTargets(db: Db, tenant: string): set<Target> {
    set t | t in db && t.tenant == tenant
  }

  /** The targets of *scanned* not seen before whose record puts them in *space*. */
  function RecordedIn(db: Db, space: string, scanned: set<Target>): set<Target> {
    set t | t in scanned && t in db && db[t].keySpace == Some(space)
  }

  function LegacyIn(w: World, cls: string, db: Db, scanned: set<Target>): set<Target> {
    set t | t in scanned && IsLegacy(w, cls, db, t)
  }

  /** One tenant's records: those in the space are held, those without a key space are left to the rules. */
  method ScanTenant(w: World, cls: string, space: string, db: Db, tenant: string, seen: set<Target>,
                    legacy: set<Target>)
    returns (held: set<Key>, sharers: set<Target>, seen': set<Target>, legacy': set<Target>)
    ensures held == KeysOf(db, RecordedIn(db, space, TenantTargets(db, tenant) - seen))
    ensures sharers == Holders(db, RecordedIn(db, space, TenantTargets(db, tenant) - seen))
    ensures seen' == seen + RecordedIn(db, space, TenantTargets(db, tenant) - seen)
    ensures legacy' == legacy + LegacyIn(w, cls, db, TenantTargets(db, tenant) - seen)
  {
    held, sharers, seen', legacy' := {}, {}, seen, legacy;
    var todo := TenantTargets(db, tenant);
    ghost var all := todo;
    ghost var counted: set<Target> := {};
    while todo != {}
      invariant todo <= all
      invariant counted == RecordedIn(db, space, all - todo - seen)
      invariant held == KeysOf(db, counted) && sharers == Holders(db, counted)
      invariant seen' == seen + counted
      invariant legacy' == legacy + LegacyIn(w, cls, db, all - todo - seen)
    {
      var t :| t in todo;
      todo := todo - {t};
      if t !in seen' {
        if db[t].keySpace == None {
          if w.sinkClass(t.datasource) == Some(cls) {
            legacy' := legacy' + {t};
          }
        } else if db[t].keySpace == Some(space) {
          held, sharers := CountIn(db, held, sharers, t, counted);
          seen', counted := seen' + {t}, counted + {t};
        }
      }
    }
    assert all - todo == all;
  }

  /** The targets not yet seen that hold keys in *space*. */
  function ElsewhereTargets(w: World, cls: string, space: string, db: Db, tenant: string, seen: set<Target>):
    set<Target>
  {
    set t | t in db && t !in seen && HoldsElsewhere(w, cls, space, db, tenant, t)
  }

  function TargetsOfTenants(db: Db, tenants: set<string>): set<Target> {
    set t | t in db && t.tenant in tenants
  }

  lemma ScannedUnion(w: World, cls: string, space: string, db: Db, a: set<Target>, b: set<Target>)
    ensures RecordedIn(db, space, a + b) == RecordedIn(db, space, a) + RecordedIn(db, space, b)
    ensures LegacyIn(w, cls, db, a + b) == LegacyIn(w, cls, db, a) + LegacyIn(w, cls, db, b)
    ensures KeysOf(db, RecordedIn(db, space, a + b))
              == KeysOf(db, RecordedIn(db, space, a)) + KeysOf(db, RecordedIn(db, space, b))
    ensures Holders(db, RecordedIn(db, space, a + b))
              == Holders(db, RecordedIn(db, space, a)) + Holders(db, RecordedIn(db, space, b))
  {
    assert RecordedIn(db, space, a + b) == RecordedIn(db, space, a) + RecordedIn(db, space, b);
    KeysOfUnion(db, RecordedIn(db, space, a), RecordedIn(db, space, b));
  }

  lemma OneMoreTenant(db: Db, done: set<string>, next: string, seen: set<Target>, seen': set<Target>)
    requires next !in done
    requires seen <= seen' <= seen + TargetsOfTenants(db, done)
    ensures TenantTargets(db, next) - seen' == TenantTargets(db, next) - seen
    ensures TargetsOfTenants(db, done + {next}) - seen ==
            (TargetsOfTenants(db, done) - seen) + (TenantTargets(db, next) - seen)
  {
  }

  lemma ElsewhereSplit(w: World, cls: string, space: string, db: Db, tenant: string, seen: set<Target>)
    ensures var scanned := TargetsOfTenants(db, {tenant} + w.tenants) - seen;
            ElsewhereTargets(w, cls, space, db, tenant, seen) ==
            RecordedIn(db, space, scanned) + PlacedTargets(w, cls, space, w.rules, LegacyIn(w, cls, db, scanned))
  {
  }

  /** _keys_held_elsewhere: exactly the keys of the targets that hold some in *space* and were not counted yet. */
  method KeysHeldElsewhere(w: World, cls: string, space: string, db: Db, tenant: string, seen: set<Target>)
    returns (held: set<Key>, sharers: set<Target>)
    ensures held == KeysOf(db, ElsewhereTargets(w, cls, space, db, tenant, seen))
    ensures sharers == Holders(db, ElsewhereTargets(w, cls, space, db, tenant, seen))
  {
    held, sharers := {}, {};
    var seen', legacy: set<Target> := seen, {};
    var todo := {tenant} + w.tenants;
    ghost var done: set<string> := {};
    ghost var scanned := TargetsOfTenants(db, done) - seen;
    while todo != {}
      invariant todo !! done && todo + done == {tenant} + w.tenants
      invariant scanned == TargetsOfTenants(db, done) - seen
      invariant held == KeysOf(db, RecordedIn(db, space, scanned))
      invariant sharers == Holders(db, RecordedIn(db, space, scanned))
      invariant seen' == seen + RecordedIn(db, space, scanned)
      invariant legacy == LegacyIn(w, cls, db, scanned)
      decreases todo
    {
      var next :| next in todo;
      var keys, holders;
      OneMoreTenant(db, done, next, seen, seen');
      ScannedUnion(w, cls, space, db, scanned, TenantTargets(db, next) - seen);
      keys, holders, seen', legacy := ScanTenant(w, cls, space, db, next, seen', legacy);
      held, sharers := held + keys, sharers + holders;
      todo, done, scanned := todo - {next}, done + {next}, scanned + (TenantTargets(db, next) - seen);
    }
    assert done == {tenant} + w.tenants;
    ElsewhereSplit(w, cls, space, db, tenant, seen);
    KeysOfUnion(db, RecordedIn(db, space, scanned), PlacedTargets(w, cls, space, w.rules, legacy));
    if legacy != {} {
      var keys, holders := KeysHeldByRules(w, cls, space, db, legacy, seen');
      held, sharers := held + keys, sharers + holders;
    }
  }

  // -- The stale keys -----------------------------------------------------------

  /** The value (or secret digest) last written for a key. */
  datatype Expected = Expected(value: Option<string>, digest: Option<string>)

  function ExpectedOf(r: Record, k: Key): Expected
    requires k in r.desired || k in r.pending
  {
    if k in r.desired then Expected(Some(r.desired[k]), Get(r.digests, k))
    else Expected(r.pending[k].value, r.pending[k].digest)
  }

  /** The keys of the files this sync did not write again. */
  function KeptKeys(db: Db, me: Target, ws: seq<Writing>): set<Key> {
    Inventory(Without(EntriesOf(Get(db, me)), Rewritten(ws)))
  }

  /** The targets whose keys a prune of *me* leaves alone. */
  function Spared(w: World, cls: string, rule: Rule, db: Db, me: Target): set<Target> {
    set t | t in db && Spares(w, cls, rule, db, me, t)
  }

  /** The keys varTrack put into *me* before that nothing holds any more. */
  function StaleKeys(w: World, cls: string, rule: Rule, db: Db, me: Target, ws: seq<Writing>): set<Key> {
    Owned(Get(db, me)) - KeptKeys(db, me, ws) - WrittenKeys(ws) - KeysOf(db, Spared(w, cls, rule, db, me))
  }

  /** Looking up what was last written for a stale key fails when the record has it in neither place. */
  predicate CanLookUp(record: Option<Record>, keys: set<Key>) {
    forall k :: k in keys ==> record.Some? && (k in record.value.desired || k in record.value.pending)
  }

  /** The targets of other datasources that a prune of *me* spares. */
  function Sharers(w: World, cls: string, rule: Rule, db: Db, me: Target): set<Target> {
    set t | t in db && !SameDatasource(me, t) && Spares(w, cls, rule, db, me, t)
  }

  /** The other environments of the same datasource that a prune of *me* spares. */
  function Sisters(w: World, cls: string, rule: Rule, db: Db, me: Target): set<Target> {
    var space := KeySpaceId(w, cls, rule, me.tenant, me.env);
    set t | t in db && SisterEnv(w, cls, space, rule, db, me, t)
  }

  lemma SparedSplit(w: World, cls: string, rule: Rule, db: Db, me: Target, seen: set<Target>)
    requires seen == {me} + TargetsOf(db, me.tenant, me.datasource)
    ensures var space := KeySpaceId(w, cls, rule, me.tenant, me.env);
            && ElsewhereTargets(w, cls, space, db, me.tenant, seen) == Sharers(w, cls, rule, db, me)
            && Spared(w, cls, rule, db, me) == Sisters(w, cls, rule, db, me) + Sharers(w, cls, rule, db, me)
  {
  }

  /** The environments of the rule's own datasource: all of them are seen, those in the same space hold their keys. */
  method HeldBySisters(w: World, cls: string, rule: Rule, db: Db, me: Target)
    returns (held: set<Key>, seen: set<Target>)
    ensures held == KeysOf(db, Sisters(w, cls, rule, db, me))
    ensures seen == {me} + TargetsOf(db, me.tenant, me.datasource)
  {
    var space := KeySpaceId(w, cls, rule, me.tenant, me.env);
    held, seen := {}, {me};
    var todo := TargetsOf(db, me.tenant, me.datasource);
    ghost var all := todo;
    ghost var sisters: set<Target> := {};
    while todo != {}
      invariant todo <= all
      invariant seen == {me} + (all - todo)
      invariant sisters == set t | t in all - todo && SisterEnv(w, cls, space, rule, db, me, t)
      invariant held == KeysOf(db, sisters)
    {
      var t :| t in todo;
      todo, seen := todo - {t}, seen + {t};
      if t != me && KeySpaceId(w, cls, rule, me.tenant, t.env) == space {
        KeysOfUnion(db, sisters, {t});
        KeysOfOne(db, t);
        held, sisters := held + Listed(db, t), sisters + {t};
      }
    }
    assert sisters == Sisters(w, cls, rule, db, me);
  }

  /** _stale_keys, with its KeyError as Failed. */
  method FindStaleKeys(w: World, cls: string, rule: Rule, db: Db, me: Target, ws: seq<Writing>)
    returns (found: Result<map<Key, Expected>>, sharers: set<Target>)
    ensures found.Ok? <==> CanLookUp(Get(db, me), StaleKeys(w, cls, rule, db, me, ws))
    ensures found.Ok? ==> found.value.Keys == StaleKeys(w, cls, rule, db, me, ws)
    ensures found.Ok? ==> forall k :: k in found.value ==> found.value[k] == ExpectedOf(db[me], k)
    ensures sharers == Holders(db, Sharers(w, cls, rule, db, me))
  {
    var record := Get(db, me);
    var space := KeySpaceId(w, cls, rule, me.tenant, me.env);
    var sisters, seen := HeldBySisters(w, cls, rule, db, me);
    var elsewhere;
    elsewhere, sharers := KeysHeldElsewhere(w, cls, space, db, me.tenant, seen);
    SparedSplit(w, cls, rule, db, me, seen);
    KeysOfUnion(db, Sisters(w, cls, rule, db, me), Sharers(w, cls, rule, db, me));
    var stale := Owned(record) - (KeptKeys(db, me, ws) + WrittenKeys(ws) + sisters + elsewhere);
    assert stale == StaleKeys(w, cls, rule, db, me, ws);
    if CanLookUp(record, stale) {
      found := Ok(map k | k in stale :: ExpectedOf(db[me], k));
    } else {
      found := Failed;
    }
  }
}
