/**
 From the layers to the sink: a protection pattern that any layer or preset gives is still there when a
 sync prunes, and what it matches is never deleted.
 */
module Protection {
  import opened Options
  import opened Settings
  import opened Ledger
  import opened KeySpaces
  import opened PruneConfigs
  import opened Sinks
  import opened Prune
  import opened Merging
  import opened Presets
  import opened RuleLayers

  /** The rule's prune block lists the pattern. */
  predicate Lists(rule: Rule, pattern: Json) {
    "prune" in rule && rule["prune"].Obj? && ListAt(rule["prune"].fields, "protection").Some?
    && pattern in ListAt(rule["prune"].fields, "protection").value
  }

  /** Merging keeps the patterns of both layers. */
  lemma MergeKeepsPatterns(mergeable: set<string>, parent: Rule, child: Rule, pattern: Json)
    requires "prune" in mergeable && Typed(mergeable, parent) && Typed(mergeable, child)
    ensures Lists(MergeChild(mergeable, parent, child), pattern) <== Lists(parent, pattern) || Lists(child, pattern)
  {
    MergedGet(mergeable, parent, child, "prune");
    if "prune" in parent && "prune" in child {
      var p, c := PruneObject(parent["prune"]), PruneObject(child["prune"]);
      if ListAt(p, "protection").Some? && ListAt(c, "protection").Some? {
        DedupeMembers(ListAt(p, "protection").value + ListAt(c, "protection").value);
      }
    }
  }

  /** A pattern that any of many layers lists is listed by their merge. */
  lemma {:induction false} FoldKeepsPatterns(mergeable: set<string>, layers: seq<Rule>, i: nat, pattern: Json)
    requires "prune" in mergeable && AllTyped(mergeable, layers) && i < |layers| && Lists(layers[i], pattern)
    ensures Lists(Fold(mergeable, layers), pattern)
  {
    var init, last := layers[..|layers| - 1], layers[|layers| - 1];
    FoldTyped(mergeable, init);
    if i < |init| {
      FoldKeepsPatterns(mergeable, init, i, pattern);
    }
    MergeKeepsPatterns(mergeable, Fold(mergeable, init), last, pattern);
  }

  /** So a pattern that any preset lists, however deep, is in the settings resolving gives. */
  lemma ResolveKeepsPatterns(u: Universe, mergeable: set<string>, config: Rule, chain: seq<string>, origin: Origin,
                             all: set<string>, i: nat, pattern: Json)
    requires AllNames(u) <= all && NamesIn(config) <= all && "prune" in mergeable
    requires TypedUniverse(u, mergeable) && Typed(mergeable, config)
    requires Bodies(u, config, chain, origin, all).Ok? && i < |Bodies(u, config, chain, origin, all).value|
    requires Lists(Bodies(u, config, chain, origin, all).value[i], pattern)
    ensures Resolve(u, mergeable, config, chain, origin, all).Ok?
    ensures Lists(Resolve(u, mergeable, config, chain, origin, all).value, pattern)
  {
    BodiesAreTyped(u, mergeable, config, chain, origin, all);
    ResolveIsFold(u, mergeable, config, chain, origin, all);
    FoldKeepsPatterns(mergeable, Bodies(u, config, chain, origin, all).value, i, pattern);
  }

  /** force replaces prune as a whole: the pattern stays exactly when force leaves prune alone or lists it itself. */
  lemma ForceKeepsPatternsExactly(o: RuleOptions, rule: Rule, pattern: Json)
    requires Lists(rule, pattern)
    ensures Lists(ApplyForce(o, rule), pattern) <==> "prune" !in Forced(o, rule) || Lists(Forced(o, rule), pattern)
  {
  }

  /** Options under which prune is an ordinary mergeable setting that every layer may give. */
  predicate PruneIsShared(o: RuleOptions) {
    "prune" in o.mergeable && "prune" in o.overridable && Stable(o, "prune")
  }

  /** The three layers a sync's rule is built from. */
  function Layers(o: RuleOptions, repoUrl: Rule -> string, cue: Rule, bundleRule: Option<Rule>, overrides: Rule):
    seq<Rule>
  {
    [Base(o, repoUrl, cue), BundleLayer(o, bundleRule), RepoLayer(o, overrides)]
  }

  lemma LayeredKeepsPatterns(o: RuleOptions, repoUrl: Rule -> string, cue: Rule, bundleRule: Option<Rule>,
                             tenant: string, pattern: Json)
    requires GoodOptions(o) && PruneIsShared(o) && "tenant_id" !in o.mergeable
    requires Typed(o.mergeable, Base(o, repoUrl, cue)) && Typed(o.mergeable, BundleLayer(o, bundleRule))
    requires "prune" !in Forced(o, Base(o, repoUrl, cue)) && Typed(o.mergeable, Forced(o, Base(o, repoUrl, cue)))
    requires Lists(Base(o, repoUrl, cue), pattern) || Lists(BundleLayer(o, bundleRule), pattern)
    ensures Lists(LayeredRule(o, repoUrl, cue, bundleRule, tenant), pattern)
  {
    var base, layer := Base(o, repoUrl, cue), BundleLayer(o, bundleRule);
    MergeKeepsPatterns(o.mergeable, base, layer, pattern);
    MergeKeeps(o.mergeable, base, layer, "force");
    hide Typed, Base, BundleLayer, Lists, MergeChild;
    var merged := MergeChild(o.mergeable, base, layer);
    assert Get(LayeredRule(o, repoUrl, cue, bundleRule, tenant), "prune") == Get(merged, "prune");
    SamePruneLists(LayeredRule(o, repoUrl, cue, bundleRule, tenant), merged, pattern);
  }

  lemma SamePruneLists(a: Rule, b: Rule, pattern: Json)
    requires Get(a, "prune") == Get(b, "prune")
    ensures Lists(a, pattern) == Lists(b, pattern)
  {
  }

  lemma LayeredIsTyped(o: RuleOptions, repoUrl: Rule -> string, cue: Rule, bundleRule: Option<Rule>, tenant: string)
    requires GoodOptions(o) && "tenant_id" !in o.mergeable
    requires Typed(o.mergeable, Base(o, repoUrl, cue)) && Typed(o.mergeable, BundleLayer(o, bundleRule))
    requires Typed(o.mergeable, Forced(o, Base(o, repoUrl, cue)))
    ensures Typed(o.mergeable, LayeredRule(o, repoUrl, cue, bundleRule, tenant))
  {
    MergedStaysTyped(o.mergeable, Base(o, repoUrl, cue), BundleLayer(o, bundleRule));
    MergeKeeps(o.mergeable, Base(o, repoUrl, cue), BundleLayer(o, bundleRule), "force");
    hide Base, BundleLayer, MergeChild;
  }

  lemma OverridesKeepPatterns(o: RuleOptions, rule: Rule, overrides: Rule, pattern: Json)
    requires GoodOptions(o) && PruneIsShared(o) && Typed(o.mergeable, rule)
    requires Typed(o.mergeable, RepoLayer(o, overrides))
    requires "prune" !in Forced(o, rule)
    requires Lists(rule, pattern) || Lists(RepoLayer(o, overrides), pattern)
    ensures Lists(WithOverrides(o, rule, overrides), pattern)
  {
    var layer := RepoLayer(o, overrides);
    MergeKeepsPatterns(o.mergeable, rule, layer, pattern);
    MergeKeeps(o.mergeable, rule, layer, "force");
    if layer != map[] {
      hide Typed, RepoLayer, Lists, MergeChild;
      SamePruneLists(WithOverrides(o, rule, overrides), MergeChild(o.mergeable, rule, layer), pattern);
    }
  }

  /** A pattern any of the three layers lists is in the rule the sync runs with, when force leaves prune alone. */
  lemma SyncRuleKeepsPatterns(o: RuleOptions, repoUrl: Rule -> string, cue: Rule, bundleRule: Option<Rule>,
                              tenant: string, overrides: Rule, i: nat, pattern: Json)
    requires GoodOptions(o) && PruneIsShared(o) && "tenant_id" !in o.mergeable
    requires var layers := Layers(o, repoUrl, cue, bundleRule, overrides);
             AllTyped(o.mergeable, layers) && i < 3 && Lists(layers[i], pattern)
    requires "prune" !in Forced(o, Base(o, repoUrl, cue))
    requires Typed(o.mergeable, Forced(o, Base(o, repoUrl, cue)))
    ensures Lists(SyncRule(o, repoUrl, cue, bundleRule, tenant, overrides), pattern)
  {
    var layers := Layers(o, repoUrl, cue, bundleRule, overrides);
    var layered := LayeredRule(o, repoUrl, cue, bundleRule, tenant);
    assert Typed(o.mergeable, layers[0]) && Typed(o.mergeable, layers[1]) && Typed(o.mergeable, layers[2]);
    assert layers[0] == Base(o, repoUrl, cue) && layers[1] == BundleLayer(o, bundleRule)
        && layers[2] == RepoLayer(o, overrides);
    LayeredKeepsAdminKey(o, repoUrl, cue, bundleRule, tenant, "force");
    assert Forced(o, layered) == Forced(o, layers[0]) by {
      assert Get(layered, "force") == Get(layers[0], "force");
    }
    hide Lists, Typed, Base, BundleLayer, RepoLayer, LayeredRule, WithOverrides, Forced;
    LayeredIsTyped(o, repoUrl, cue, bundleRule, tenant);
    if i < 2 {
      LayeredKeepsPatterns(o, repoUrl, cue, bundleRule, tenant, pattern);
    }
    OverridesKeepPatterns(o, layered, overrides, pattern);
  }

  /** A pattern the rule's block lists is one of the prune configuration's. */
  lemma ListedPatternIsConfigured(rule: Rule, pattern: Json)
    requires Lists(rule, pattern)
    ensures pattern in ExtractPruneConfig(rule).protection
  {
  }

  /** What a file of settings lists is what its layer lists. */
  lemma LayersListTheirPatterns(o: RuleOptions, repoUrl: Rule -> string, cue: Rule, bundleRule: Option<Rule>,
                                overrides: Rule, pattern: Json)
    requires GoodOptions(o) && PruneIsShared(o)
    ensures var layers := Layers(o, repoUrl, cue, bundleRule, overrides);
            && (Lists(layers[0], pattern) <==> Lists(cue, pattern))
            && (Lists(layers[1], pattern) <==> bundleRule.Some? && Lists(bundleRule.value, pattern))
            && (Lists(layers[2], pattern) <==> Lists(overrides, pattern))
  {
    var layers := Layers(o, repoUrl, cue, bundleRule, overrides);
    CurrentNamesKeep(o, cue, "prune");
    assert Get(layers[0], "prune") == Get(cue, "prune");
    if bundleRule.Some? {
      CurrentNamesKeep(o, bundleRule.value, "prune");
      assert Get(layers[1], "prune") == Get(bundleRule.value, "prune");
    }
    CurrentNamesKeep(o, overrides, "prune");
    assert Get(layers[2], "prune") == Get(overrides, "prune");
  }

  /**
   From end to end: a key that matches a pattern listed in config.cue's rule, in the tenant's bundle.json
   rule or in the repository's vartrack.json is never deleted by the sync's prune, whatever the other
   layers say, as long as force leaves prune alone.
   */
  lemma PatternInAnyLayerProtects(o: RuleOptions, repoUrl: Rule -> string, cue: Rule, bundleRule: Option<Rule>,
                                  tenant: string, overrides: Rule, pattern: Json, w: World, cls: string,
                                  settings: Rule, db: Option<Db>, me: Target, ws: seq<Writing>,
                                  live: Option<map<Key, Live>>, k: Key)
    requires GoodOptions(o) && PruneIsShared(o) && "tenant_id" !in o.mergeable
    requires AllTyped(o.mergeable, Layers(o, repoUrl, cue, bundleRule, overrides))
    requires Typed(o.mergeable, Forced(o, Base(o, repoUrl, cue))) && "prune" !in Forced(o, Base(o, repoUrl, cue))
    requires Lists(cue, pattern) || (bundleRule.Some? && Lists(bundleRule.value, pattern)) || Lists(overrides, pattern)
    requires pattern.Str? && w.matches(k, pattern.s)
    ensures var rule := SyncRule(o, repoUrl, cue, bundleRule, tenant, overrides);
            k !in Mine(w, cls, settings, ExtractPruneConfig(rule), db, me, ws, live)
  {
    LayersListTheirPatterns(o, repoUrl, cue, bundleRule, overrides, pattern);
    var layers := Layers(o, repoUrl, cue, bundleRule, overrides);
    var i := if Lists(layers[0], pattern) then 0 else if Lists(layers[1], pattern) then 1 else 2;
    SyncRuleKeepsPatterns(o, repoUrl, cue, bundleRule, tenant, overrides, i, pattern);
    var rule := SyncRule(o, repoUrl, cue, bundleRule, tenant, overrides);
    ListedPatternIsConfigured(rule, pattern);
    assert Protected(w, ExtractPruneConfig(rule), k);
  }

  /**
   A pattern given the former way, under prune_protection, counts exactly when the prune block lists no
   patterns of its own or lists this one too: it does not add to a block's list.
   */
  lemma FlatPatternCountsExactly(rule: Rule, pattern: Json)
    requires "prune_protection" in rule && rule["prune_protection"].List? && pattern in rule["prune_protection"].items
    requires "prune" in rule && TypedPrune(rule["prune"])
    ensures pattern in ExtractPruneConfig(rule).protection <==>
            Lists(rule, pattern) || !rule["prune"].Obj?
                || ListAt(rule["prune"].fields, "protection") in {None, Some([])}
  {
  }
}
