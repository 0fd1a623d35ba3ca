/**
 The former way to give protection patterns, `prune_protection` beside the prune block: not a mergeable
 setting, so a layer that gives it replaces the one below, and a block with patterns of its own hides it.
 */
module FlatProtection {
  import opened Options
  import opened Settings
  import opened PruneConfigs
  import opened Merging
  import opened RuleLayers
  import opened Protection
  import opened PresetProtection

  const FLAT: string := "prune_protection"

  /** The flat patterns a layer gives. */
  function FlatPatterns(layer: Rule): seq<Json> {
    ListOr(Get(layer, FLAT), [])
  }

  /** Merging lists exactly the patterns of both layers. */
  lemma MergeListsExactly(mergeable: set<string>, parent: Rule, child: Rule, pattern: Json)
    requires "prune" in mergeable && Typed(mergeable, parent) && Typed(mergeable, child)
    ensures Lists(MergeChild(mergeable, parent, child), pattern) <==> Lists(parent, pattern) || Lists(child, pattern)
  {
    MergeKeepsPatterns(mergeable, parent, child, pattern);
    MergedGet(mergeable, parent, child, "prune");
    if "prune" in parent && "prune" in child {
      var p, c := PruneObject(parent["prune"]), PruneObject(child["prune"]);
      if ListAt(p, "protection").Some? && ListAt(c, "protection").Some? {
        DedupeMembers(ListAt(p, "protection").value + ListAt(c, "protection").value);
      }
    }
  }

  /** Options under which flat patterns are an ordinary setting that config.cue and bundle.json may give. */
  predicate FlatIsPlain(o: RuleOptions) {
    && PlainMergeable(o) && Stable(o, FLAT)
    && FLAT !in o.mergeable && FLAT !in o.adminOnly && FLAT !in o.overridable
  }

  /** What the layers come to, seen from one key that force leaves alone. */
  lemma LayeredAt(o: RuleOptions, repoUrl: Rule -> string, cue: Rule, bundleRule: Option<Rule>, tenant: string,
                  key: string)
    requires GoodOptions(o) && key != "tenant_id" && key !in Forced(o, Base(o, repoUrl, cue))
    ensures Get(LayeredRule(o, repoUrl, cue, bundleRule, tenant), key)
         == Get(MergeChild(o.mergeable, Base(o, repoUrl, cue), BundleLayer(o, bundleRule)), key)
  {
    MergeKeeps(o.mergeable, Base(o, repoUrl, cue), BundleLayer(o, bundleRule), "force");
    hide MergeChild, Base, BundleLayer;
  }

  lemma OverriddenAt(o: RuleOptions, rule: Rule, overrides: Rule, key: string)
    requires GoodOptions(o) && key !in Forced(o, rule)
    ensures Get(WithOverrides(o, rule, overrides), key) ==
            if RepoLayer(o, overrides) == map[] then Get(rule, key)
            else Get(MergeChild(o.mergeable, rule, RepoLayer(o, overrides)), key)
  {
    MergeKeeps(o.mergeable, rule, RepoLayer(o, overrides), "force");
    hide MergeChild, RepoLayer;
  }

  lemma SameForce(o: RuleOptions, repoUrl: Rule -> string, cue: Rule, bundleRule: Option<Rule>, tenant: string)
    requires GoodOptions(o)
    ensures Forced(o, LayeredRule(o, repoUrl, cue, bundleRule, tenant)) == Forced(o, Base(o, repoUrl, cue))
  {
    LayeredKeepsAdminKey(o, repoUrl, cue, bundleRule, tenant, "force");
    assert Get(LayeredRule(o, repoUrl, cue, bundleRule, tenant), "force") == Get(Base(o, repoUrl, cue), "force");
    hide LayeredRule, Base;
  }

  /** The sync's rule lists exactly the patterns that some layer's block lists. */
  lemma SyncRuleListsExactly(o: RuleOptions, repoUrl: Rule -> string, cue: Rule, bundleRule: Option<Rule>,
                             tenant: string, overrides: Rule, pattern: Json)
    requires FlatIsPlain(o) && Typed(o.mergeable, cue) && Typed(o.mergeable, overrides)
    requires bundleRule.Some? ==> Typed(o.mergeable, bundleRule.value)
    requires "prune" !in Forced(o, Base(o, repoUrl, cue)) && Typed(o.mergeable, Forced(o, Base(o, repoUrl, cue)))
    ensures Lists(SyncRule(o, repoUrl, cue, bundleRule, tenant, overrides), pattern) <==>
            Lists(cue, pattern) || (bundleRule.Some? && Lists(bundleRule.value, pattern)) || Lists(overrides, pattern)
  {
    var layers := Layers(o, repoUrl, cue, bundleRule, overrides);
    LayersAreTyped(o, repoUrl, cue, bundleRule, overrides);
    assert Typed(o.mergeable, layers[0]) && Typed(o.mergeable, layers[1]) && Typed(o.mergeable, layers[2]);
    LayersListTheirPatterns(o, repoUrl, cue, bundleRule, overrides, pattern);
    var layered := LayeredRule(o, repoUrl, cue, bundleRule, tenant);
    LayeredIsTyped(o, repoUrl, cue, bundleRule, tenant);
    MergeListsExactly(o.mergeable, layers[0], layers[1], pattern);
    LayeredAt(o, repoUrl, cue, bundleRule, tenant, "prune");
    SamePruneLists(layered, MergeChild(o.mergeable, layers[0], layers[1]), pattern);
    SameForce(o, repoUrl, cue, bundleRule, tenant);
    OverriddenAt(o, layered, overrides, "prune");
    var rule := SyncRule(o, repoUrl, cue, bundleRule, tenant, overrides);
    assert layers[2] == RepoLayer(o, overrides);
    if layers[2] == map[] {
      SamePruneLists(rule, layered, pattern);
      assert !Lists(map[], pattern);
    } else {
      MergeListsExactly(o.mergeable, layered, layers[2], pattern);
      SamePruneLists(rule, MergeChild(o.mergeable, layered, layers[2]), pattern);
    }
  }

  /** The flat patterns of the sync's rule are bundle.json's when it gives any, even none, else config.cue's. */
  lemma FlatOfSyncRule(o: RuleOptions, repoUrl: Rule -> string, cue: Rule, bundleRule: Option<Rule>, tenant: string,
                       overrides: Rule)
    requires FlatIsPlain(o) && FLAT !in Forced(o, Base(o, repoUrl, cue))
    ensures Get(SyncRule(o, repoUrl, cue, bundleRule, tenant, overrides), FLAT) ==
            if bundleRule.Some? && FLAT in bundleRule.value then Get(bundleRule.value, FLAT) else Get(cue, FLAT)
  {
    var base, layer := Base(o, repoUrl, cue), BundleLayer(o, bundleRule);
    var layered := LayeredRule(o, repoUrl, cue, bundleRule, tenant);
    CurrentNamesKeep(o, cue, FLAT);
    assert Get(base, FLAT) == Get(cue, FLAT);
    if bundleRule.Some? {
      CurrentNamesKeep(o, bundleRule.value, FLAT);
      assert Get(layer, FLAT) == Get(bundleRule.value, FLAT);
    }
    LayeredAt(o, repoUrl, cue, bundleRule, tenant, FLAT);
    MergedGet(o.mergeable, base, layer, FLAT);
    SameForce(o, repoUrl, cue, bundleRule, tenant);
    OverriddenAt(o, layered, overrides, FLAT);
    MergedGet(o.mergeable, layered, RepoLayer(o, overrides), FLAT);
    assert FLAT !in RepoLayer(o, overrides);
  }

  lemma SyncRuleIsTyped(o: RuleOptions, repoUrl: Rule -> string, cue: Rule, bundleRule: Option<Rule>, tenant: string,
                        overrides: Rule)
    requires FlatIsPlain(o) && Typed(o.mergeable, cue) && Typed(o.mergeable, overrides)
    requires bundleRule.Some? ==> Typed(o.mergeable, bundleRule.value)
    requires Typed(o.mergeable, Forced(o, Base(o, repoUrl, cue)))
    ensures Typed(o.mergeable, SyncRule(o, repoUrl, cue, bundleRule, tenant, overrides))
  {
    var layers := Layers(o, repoUrl, cue, bundleRule, overrides);
    var layered := LayeredRule(o, repoUrl, cue, bundleRule, tenant);
    LayersAreTyped(o, repoUrl, cue, bundleRule, overrides);
    assert Typed(o.mergeable, layers[0]) && Typed(o.mergeable, layers[1]) && Typed(o.mergeable, layers[2]);
    LayeredIsTyped(o, repoUrl, cue, bundleRule, tenant);
    SameForce(o, repoUrl, cue, bundleRule, tenant);
    MergedStaysTyped(o.mergeable, layered, layers[2]);
    MergeKeeps(o.mergeable, layered, RepoLayer(o, overrides), "force");
    hide LayeredRule, Base, BundleLayer, RepoLayer, MergeChild;
  }

  /** Some layer's prune block lists the pattern. */
  predicate AnyBlockLists(cue: Rule, bundleRule: Option<Rule>, overrides: Rule, pattern: Json) {
    Lists(cue, pattern) || (bundleRule.Some? && Lists(bundleRule.value, pattern)) || Lists(overrides, pattern)
  }

  /**
   A pattern is among the ones a sync prunes by, exactly when some layer's block lists it; or no layer's block
   lists any, and it is a flat pattern of bundle.json, or of config.cue when bundle.json gives no flat ones.
   */
  lemma PatternsOfSyncExactly(o: RuleOptions, repoUrl: Rule -> string, cue: Rule, bundleRule: Option<Rule>,
                              tenant: string, overrides: Rule, pattern: Json)
    requires FlatIsPlain(o) && Typed(o.mergeable, cue) && Typed(o.mergeable, overrides)
    requires bundleRule.Some? ==> Typed(o.mergeable, bundleRule.value)
    requires var forced := Forced(o, Base(o, repoUrl, cue));
             "prune" !in forced && FLAT !in forced && Typed(o.mergeable, forced)
    ensures var flat := if bundleRule.Some?
              && FLAT in bundleRule.value then FlatPatterns(bundleRule.value) else FlatPatterns(cue);
            pattern in ExtractPruneConfig(SyncRule(o, repoUrl, cue, bundleRule, tenant, overrides)).protection <==>
            || AnyBlockLists(cue, bundleRule, overrides, pattern)
            || ((forall other :: !AnyBlockLists(cue, bundleRule, overrides, other)) && pattern in flat)
  {
    var rule := SyncRule(o, repoUrl, cue, bundleRule, tenant, overrides);
    forall other ensures Lists(rule, other) <==> AnyBlockLists(cue, bundleRule, overrides, other) {
      SyncRuleListsExactly(o, repoUrl, cue, bundleRule, tenant, overrides, other);
    }
    FlatOfSyncRule(o, repoUrl, cue, bundleRule, tenant, overrides);
    SyncRuleIsTyped(o, repoUrl, cue, bundleRule, tenant, overrides);
    hide SyncRule;
    ProtectionOf(rule, pattern);
  }

  /** The patterns of one rule: its block's when it has any, else the flat ones. */
  lemma ProtectionOf(rule: Rule, pattern: Json)
    requires "prune" in rule ==> TypedPrune(rule["prune"])
    ensures pattern in ExtractPruneConfig(rule).protection <==>
            Lists(rule, pattern) || ((forall other :: !Lists(rule, other)) && pattern in FlatPatterns(rule))
  {
    if "prune" in rule && rule["prune"].Obj? && ListAt(rule["prune"].fields, "protection").Some? {
      var patterns := ListAt(rule["prune"].fields, "protection").value;
      assert patterns != [] ==> Lists(rule, patterns[0]);
    }
  }

  lemma ProtoMergeableIsStable(sinkSettings: set<string>)
    ensures var o := ProtoOptions(sinkSettings);
            Stable(o, FLAT) && Stable(o, "prune") && forall k :: k in o.mergeable ==> Stable(o, k)
  {
  }

  /** rule.proto's declarations are such, as long as no sink setting is a rule option. */
  lemma ProtoOptionsArePlain(sinkSettings: set<string>)
    requires sinkSettings !! ProtoOptions({}).overridable && sinkSettings !! IDENTITY
    requires sinkSettings !! {"tenant_id", FLAT}
    ensures FlatIsPlain(ProtoOptions(sinkSettings))
  {
    ProtoOptionsAreGood(sinkSettings);
    ProtoMergeableIsStable(sinkSettings);
    hide GoodOptions, Stable;
  }
}
