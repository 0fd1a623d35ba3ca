/**
 Protection from presets to the sink: a pattern in any preset that bundle.json or vartrack.json extends,
 however deep, protects the keys it matches from every prune.
 */
module PresetProtection {
  import opened Options
  import opened Settings
  import opened Ledger
  import opened KeySpaces
  import opened PruneConfigs
  import opened Prune
  import opened Merging
  import opened Presets
  import opened BundlePresets
  import opened RuleLayers
  import opened Protection

  /** Resolved settings have their declared types when every file does. */
  lemma ResolvedIsTyped(u: Universe, mergeable: set<string>, config: Rule, chain: seq<string>, origin: Origin,
                        all: set<string>)
    requires AllNames(u) <= all && NamesIn(config) <= all
    requires TypedUniverse(u, mergeable) && Typed(mergeable, config)
    ensures var r := Resolve(u, mergeable, config, chain, origin, all); r.Ok? ==> Typed(mergeable, r.value)
  {
    ResolveIsFold(u, mergeable, config, chain, origin, all);
    if Bodies(u, config, chain, origin, all).Ok? {
      BodiesAreTyped(u, mergeable, config, chain, origin, all);
      FoldTyped(mergeable, Bodies(u, config, chain, origin, all).value);
    }
  }

  /** Where a file's presets live, when that is known. */
  datatype Source = Source(u: Universe, mergeable: set<string>, origin: Option<Origin>)

  ghost predicate TypedSource(f: Source) {
    TypedUniverse(f.u, f.mergeable) && "extends" !in f.mergeable && "prune" in f.mergeable
  }

  // -- bundle.json --------------------------------------------------------------

  /** All the settings a bundle.json rule is made of: the file's presets, its own, and the rule itself. */
  function RuleBodies(f: Source, top: seq<string>, rule: Rule): Result<seq<Rule>> {
    match Wanted(top, rule)
    case None => Failed
    case Some(wanted) =>
      if wanted == [] then Ok([rule])
      else if f.origin.None? then Failed
      else
        AskingExtends(f.u, rule, wanted);
        Bodies(f.u, Asking(rule, wanted), [], f.origin.value, Names(f.u, wanted))
  }

  // -- vartrack.json ------------------------------------------------------------

  predicate AsksPresets(overrides: Rule) {
    "extends" in overrides && Truthy(overrides["extends"])
  }

  /** apply_repo_overrides up to the layers: presets are resolved only when the file extends some. */
  function RepoSettings(f: Source, origin: Origin, overrides: Rule): Result<Rule> {
    if AsksPresets(overrides)
    then Resolve(f.u, f.mergeable, overrides, [], origin, AllNames(f.u) + NamesIn(overrides))
    else Ok(overrides)
  }

  function RepoBodies(f: Source, origin: Origin, overrides: Rule): Result<seq<Rule>> {
    if AsksPresets(overrides)
    then Bodies(f.u, overrides, [], origin, AllNames(f.u) + NamesIn(overrides))
    else Ok([overrides])
  }

  ghost predicate SomeLists(bodies: Result<seq<Rule>>, pattern: Json) {
    bodies.Ok? && exists i :: 0 <= i < |bodies.value| && Lists(bodies.value[i], pattern)
  }

  lemma RuleResultKeepsPatterns(f: Source, top: seq<string>, rule: Rule, pattern: Json)
    requires TypedSource(f) && Typed(f.mergeable, rule)
    ensures var r := RuleResult(f.u, f.mergeable, f.origin, top, rule);
            && (r.Ok? ==> Typed(f.mergeable, r.value))
            && (SomeLists(RuleBodies(f, top, rule), pattern) ==> r.Ok? && Lists(r.value, pattern))
  {
    match Wanted(top, rule)
    case None =>
    case Some(wanted) =>
      if wanted != [] && f.origin.Some? {
        var all := Names(f.u, wanted);
        AskingExtends(f.u, rule, wanted);
        ResolvedIsTyped(f.u, f.mergeable, Asking(rule, wanted), [], f.origin.value, all);
        if SomeLists(RuleBodies(f, top, rule), pattern) {
          var i :| 0 <= i < |RuleBodies(f, top, rule).value| && Lists(RuleBodies(f, top, rule).value[i], pattern);
          ResolveKeepsPatterns(f.u, f.mergeable, Asking(rule, wanted), [], f.origin.value, all, i, pattern);
        }
      }
  }

  lemma RepoSettingsKeepPatterns(f: Source, origin: Origin, overrides: Rule, pattern: Json)
    requires TypedSource(f) && Typed(f.mergeable, overrides)
    ensures var r := RepoSettings(f, origin, overrides);
            && (r.Ok? ==> Typed(f.mergeable, r.value))
            && (SomeLists(RepoBodies(f, origin, overrides), pattern) ==> r.Ok? && Lists(r.value, pattern))
  {
    if AsksPresets(overrides) {
      var all := AllNames(f.u) + NamesIn(overrides);
      ResolvedIsTyped(f.u, f.mergeable, overrides, [], origin, all);
      if SomeLists(RepoBodies(f, origin, overrides), pattern) {
        var i :| 0 <= i < |RepoBodies(f, origin, overrides).value|
            && Lists(RepoBodies(f, origin, overrides).value[i], pattern);
        ResolveKeepsPatterns(f.u, f.mergeable, overrides, [], origin, all, i, pattern);
      }
    }
  }

  // -- The layers keep the types ------------------------------------------------

  /** Options under which the layers neither rename nor replace what merges. */
  predicate PlainMergeable(o: RuleOptions) {
    && GoodOptions(o) && PruneIsShared(o)
    && (forall k :: k in o.mergeable ==> Stable(o, k))
    && o.mergeable !! {"tenant_id", "repo_url", "extends"}
  }

  lemma CurrentNamesStayTyped(o: RuleOptions, rule: Rule)
    requires PlainMergeable(o) && Typed(o.mergeable, rule)
    ensures Typed(o.mergeable, CurrentNames(o, rule))
  {
    forall k | k in o.mergeable && k in CurrentNames(o, rule)
      ensures TypedAt(k, Some(CurrentNames(o, rule)[k]))
    {
      CurrentNamesKeep(o, rule, k);
      assert Get(CurrentNames(o, rule), k) == Get(rule, k);
    }
  }

  lemma LayersAreTyped(o: RuleOptions, repoUrl: Rule -> string, cue: Rule, bundleRule: Option<Rule>, overrides: Rule)
    requires PlainMergeable(o) && Typed(o.mergeable, cue) && Typed(o.mergeable, overrides)
    requires bundleRule.Some? ==> Typed(o.mergeable, bundleRule.value)
    ensures AllTyped(o.mergeable, Layers(o, repoUrl, cue, bundleRule, overrides))
  {
    CurrentNamesStayTyped(o, cue);
    CurrentNamesStayTyped(o, overrides);
    if bundleRule.Some? {
      CurrentNamesStayTyped(o, bundleRule.value);
    }
  }

  /** The tenant's bundle.json rule as its layer takes it: None when the file has none, or cannot be resolved. */
  function BundleRule(f: Source, top: seq<string>, raw: Option<Rule>): Option<Rule> {
    match raw
    case None => None
    case Some(rule) =>
      match RuleResult(f.u, f.mergeable, f.origin, top, rule)
      case Failed => None
      case Ok(resolved) => Some(resolved)
  }

  /**
   From end to end: a key that matches a pattern of config.cue's rule, of the bundle.json rule or the
   vartrack.json, or of any preset either of these extends, is never deleted by the sync's prune, whatever
   everything else says, as long as force leaves prune alone.
   */
  lemma PatternInAnyPresetProtects(o: RuleOptions, repoUrl: Rule -> string, cue: Rule, bundles: Source,
                                   top: seq<string>, raw: Option<Rule>, repos: Source, origin: Origin, file: Rule,
                                   tenant: string, pattern: Json, w: World, cls: string, settings: Rule,
                                   db: Option<Db>, me: Target, ws: seq<Writing>, live: Option<map<Key, Live>>, k: Key)
    requires PlainMergeable(o) && bundles.mergeable == o.mergeable == repos.mergeable
    requires TypedSource(bundles) && TypedSource(repos)
    requires Typed(o.mergeable, cue) && Typed(o.mergeable, file) && (raw.Some? ==> Typed(o.mergeable, raw.value))
    requires Typed(o.mergeable, Forced(o, Base(o, repoUrl, cue))) && "prune" !in Forced(o, Base(o, repoUrl, cue))
    requires RepoSettings(repos, origin, file).Ok?
    requires || Lists(cue, pattern)
             || (raw.Some? && SomeLists(RuleBodies(bundles, top, raw.value), pattern))
             || SomeLists(RepoBodies(repos, origin, file), pattern)
    requires pattern.Str? && w.matches(k, pattern.s)
    ensures var rule := SyncRule(o, repoUrl, cue, BundleRule(bundles, top, raw), tenant,
                                 RepoSettings(repos, origin, file).value);
            k !in Mine(w, cls, settings, ExtractPruneConfig(rule), db, me, ws, live)
  {
    var bundleRule, overrides := BundleRule(bundles, top, raw), RepoSettings(repos, origin, file).value;
    if raw.Some? {
      RuleResultKeepsPatterns(bundles, top, raw.value, pattern);
    }
    RepoSettingsKeepPatterns(repos, origin, file, pattern);
    LayersAreTyped(o, repoUrl, cue, bundleRule, overrides);
    hide Lists, RuleResult, RepoSettings, Typed, Mine;
    PatternInAnyLayerProtects(o, repoUrl, cue, bundleRule, tenant, overrides, pattern, w, cls, settings, db, me, ws,
                              live, k);
  }
}
