/**
 The rule a sync runs with (rule_layers, repo_overrides): config.cue's, the tenant's bundle.json over it,
 the repository's vartrack.json over that, and config.cue's `force` last.
 */
module RuleLayers {
  import opened Options
  import opened Settings
  import opened Merging

  /** An option that was renamed. */
  datatype Renamed = Renamed(former: string, current: string)

  /** What the rule options' declarations say: which merge, who may set them, which names changed. */
  datatype RuleOptions = RuleOptions(
    mergeable: set<string>,
    adminOnly: set<string>,
    overridable: set<string>,
    renamed: seq<Renamed>,
    removed: set<string>)

  const IDENTITY: set<string> := {"platform", "datasource"}

  /** A key no rename and no removal touches. */
  predicate Stable(o: RuleOptions, key: string) {
    key !in o.removed && forall r :: r in o.renamed ==> r.former != key && r.current != key
  }

  /** The declarations are as the layers need them. */
  predicate GoodOptions(o: RuleOptions) {
    && "force" in o.adminOnly
    && "tenant_id" !in o.adminOnly
    && o.adminOnly !! o.overridable
    && Stable(o, "platform") && Stable(o, "datasource")
    && o.adminOnly !! IDENTITY
  }

  // -- Current names ------------------------------------------------------------

  function RenameOne(rule: Rule, r: Renamed): Rule {
    if r.former !in rule then rule
    else
      var without := rule - {r.former};
      if r.current in without then without else without[r.current := rule[r.former]]
  }

  function RenameEach(rule: Rule, renamed: seq<Renamed>): Rule
    decreases |renamed|
  {
    if renamed == [] then rule else RenameEach(RenameOne(rule, renamed[0]), renamed[1..])
  }

  /** with_current_names: removed options go, renamed ones take their current name unless that is set too. */
  function CurrentNames(o: RuleOptions, rule: Rule): Rule {
    RenameEach(rule - o.removed, o.renamed)
  }

  lemma {:induction false} RenameEachKeeps(rule: Rule, renamed: seq<Renamed>, key: string)
    requires forall r :: r in renamed ==> r.former != key && r.current != key
    ensures Get(RenameEach(rule, renamed), key) == Get(rule, key)
    decreases |renamed|
  {
    if renamed != [] {
      RenameEachKeeps(RenameOne(rule, renamed[0]), renamed[1..], key);
    }
  }

  lemma CurrentNamesKeep(o: RuleOptions, rule: Rule, key: string)
    requires Stable(o, key)
    ensures Get(CurrentNames(o, rule), key) == Get(rule, key)
  {
    RenameEachKeeps(rule - o.removed, o.renamed, key);
  }

  // -- The layers ---------------------------------------------------------------

  /** The keys force cannot set. */
  function Blocked(o: RuleOptions): set<string> {
    o.adminOnly + IDENTITY
  }

  /** The settings a rule's force pins. */
  function Forced(o: RuleOptions, rule: Rule): Rule {
    if "force" in rule && rule["force"].Obj? then rule["force"].fields - Blocked(o) else map[]
  }

  /** apply_force. */
  function ApplyForce(o: RuleOptions, rule: Rule): Rule {
    rule + Forced(o, rule)
  }

  /** config.cue's rule under current names, with its repository's URL when it names one. */
  function Base(o: RuleOptions, repoUrl: Rule -> string, cue: Rule): Rule {
    var rule := CurrentNames(o, cue);
    if repoUrl(rule) != "" then rule["repo_url" := Str(repoUrl(rule))] else rule
  }

  /** The bundle.json layer: under current names, without what only config.cue sets. */
  function BundleLayer(o: RuleOptions, bundleRule: Option<Rule>): Rule {
    if bundleRule.Some? then CurrentNames(o, bundleRule.value) - o.adminOnly else map[]
  }

  /** layered_rule. */
  function LayeredRule(o: RuleOptions, repoUrl: Rule -> string, cue: Rule, bundleRule: Option<Rule>, tenant: string):
    Rule
  {
    var merged := MergeChild(o.mergeable, Base(o, repoUrl, cue), BundleLayer(o, bundleRule));
    ApplyForce(o, if "tenant_id" in merged then merged else merged["tenant_id" := Str(tenant)])
  }

  /** The vartrack.json layer: what a repository may set, under current names. */
  function RepoLayer(o: RuleOptions, overrides: Rule): Rule {
    map k | k in CurrentNames(o, overrides) && k in o.overridable :: CurrentNames(o, overrides)[k]
  }

  /** apply_repo_overrides once vartrack.json is read and its presets are resolved. */
  function WithOverrides(o: RuleOptions, rule: Rule, overrides: Rule): Rule {
    var applicable := RepoLayer(o, overrides);
    if applicable == map[] then rule else ApplyForce(o, MergeChild(o.mergeable, rule, applicable))
  }

  /** The rule a sync runs with. */
  function SyncRule(o: RuleOptions, repoUrl: Rule -> string, cue: Rule, bundleRule: Option<Rule>, tenant: string,
                    overrides: Rule): Rule
  {
    WithOverrides(o, LayeredRule(o, repoUrl, cue, bundleRule, tenant), overrides)
  }

  // -- What no layer can change -------------------------------------------------

  lemma MergeKeeps(mergeable: set<string>, parent: Rule, child: Rule, key: string)
    requires key !in child
    ensures Get(MergeChild(mergeable, parent, child), key) == Get(parent, key)
  {
    MergedGet(mergeable, parent, child, key);
  }

  lemma LayeredKeepsAdminKey(o: RuleOptions, repoUrl: Rule -> string, cue: Rule, bundleRule: Option<Rule>,
                             tenant: string, key: string)
    requires GoodOptions(o) && key in o.adminOnly
    ensures Get(LayeredRule(o, repoUrl, cue, bundleRule, tenant), key) == Get(Base(o, repoUrl, cue), key)
  {
    MergeKeeps(o.mergeable, Base(o, repoUrl, cue), BundleLayer(o, bundleRule), key);
  }

  lemma OverridesKeepAdminKey(o: RuleOptions, rule: Rule, overrides: Rule, key: string)
    requires GoodOptions(o) && key in o.adminOnly
    ensures Get(WithOverrides(o, rule, overrides), key) == Get(rule, key)
  {
    MergeKeeps(o.mergeable, rule, RepoLayer(o, overrides), key);
  }

  /**
   Whatever bundle.json and vartrack.json say, under old option names too, what only config.cue sets stays
   config.cue's.
   */
  lemma AdminKeysAreConfigCues(o: RuleOptions, repoUrl: Rule -> string, cue: Rule, bundleRule: Option<Rule>,
                               tenant: string, overrides: Rule, key: string)
    requires GoodOptions(o) && key in o.adminOnly
    ensures Get(SyncRule(o, repoUrl, cue, bundleRule, tenant, overrides), key) == Get(Base(o, repoUrl, cue), key)
  {
    LayeredKeepsAdminKey(o, repoUrl, cue, bundleRule, tenant, key);
    OverridesKeepAdminKey(o, LayeredRule(o, repoUrl, cue, bundleRule, tenant), overrides, key);
  }

  /** Every key config.cue's force may set has force's value after both layers. */
  lemma ForceHasTheLastWord(o: RuleOptions, repoUrl: Rule -> string, cue: Rule, bundleRule: Option<Rule>,
                            tenant: string, overrides: Rule, key: string)
    requires GoodOptions(o) && key in Forced(o, Base(o, repoUrl, cue))
    ensures var forced := Some(Forced(o, Base(o, repoUrl, cue))[key]);
            && Get(LayeredRule(o, repoUrl, cue, bundleRule, tenant), key) == forced
            && Get(SyncRule(o, repoUrl, cue, bundleRule, tenant, overrides), key) == forced
  {
    var base, layered := Base(o, repoUrl, cue), LayeredRule(o, repoUrl, cue, bundleRule, tenant);
    var merged := MergeChild(o.mergeable, base, BundleLayer(o, bundleRule));
    MergeKeeps(o.mergeable, base, BundleLayer(o, bundleRule), "force");
    assert Get(merged, "force") == Get(base, "force");
    LayeredKeepsAdminKey(o, repoUrl, cue, bundleRule, tenant, "force");
    var applicable := RepoLayer(o, overrides);
    MergeKeeps(o.mergeable, layered, applicable, "force");
    assert Get(MergeChild(o.mergeable, layered, applicable), "force") == Get(base, "force");
  }

  /** The rule still is the one for its platform and datasource. */
  lemma LayeredKeepsIdentity(o: RuleOptions, repoUrl: Rule -> string, cue: Rule, bundleRule: Option<Rule>,
                             tenant: string, key: string)
    requires GoodOptions(o) && key in IDENTITY && key !in o.mergeable
    requires bundleRule.Some? ==> Get(bundleRule.value, key) == Get(cue, key)
    ensures Get(LayeredRule(o, repoUrl, cue, bundleRule, tenant), key) == Get(cue, key)
  {
    CurrentNamesKeep(o, cue, key);
    if bundleRule.Some? {
      CurrentNamesKeep(o, bundleRule.value, key);
    }
    MergedGet(o.mergeable, Base(o, repoUrl, cue), BundleLayer(o, bundleRule), key);
  }

  // -- The declarations of rule.proto -------------------------------------------

  /** rule.proto's annotations; the sink settings config.cue's datasources are translated to join adminOnly. */
  function ProtoOptions(sinkSettings: set<string>): RuleOptions {
    RuleOptions(
      {"file_path_map", "branch_map", "variables_map", "prune"},
      {"repositories", "secret_manager", "exclude_repositories", "overrides", "self_heal", "force",
       "tenants"} + sinkSettings,
      {"file_name", "file_path_map", "root_key", "branch_as_env", "pr_as_env", "tag_as_env", "branch_map",
       "variables_map",
       "sync_mode", "prune", "dry_run", "strict_validation"},
      [Renamed("env_as_branch", "branch_as_env"), Renamed("env_as_pr", "pr_as_env"),
       Renamed("env_as_tags", "tag_as_env"),
       Renamed("env_as_prefix", "prefix_as_env")],
      {"secrets", "retry_backoff"})
  }

  lemma ProtoIdentityIsStable(sinkSettings: set<string>)
    ensures Stable(ProtoOptions(sinkSettings), "platform") && Stable(ProtoOptions(sinkSettings), "datasource")
  {
  }

  lemma ProtoSetsAreDisjoint(sinkSettings: set<string>)
    requires sinkSettings !! ProtoOptions({}).overridable && sinkSettings !! IDENTITY && "tenant_id" !in sinkSettings
    ensures var o := ProtoOptions(sinkSettings);
            o.adminOnly !! o.overridable && o.adminOnly !! IDENTITY && "force" in o.adminOnly
                && "tenant_id" !in o.adminOnly
  {
    var own := ProtoOptions({}).adminOnly;
    assert ProtoOptions(sinkSettings).adminOnly == own + sinkSettings;
    assert own !! ProtoOptions({}).overridable;
    assert own !! IDENTITY;
  }

  /** They are as the layers need them, as long as no sink setting is a rule option. */
  lemma ProtoOptionsAreGood(sinkSettings: set<string>)
    requires sinkSettings !! ProtoOptions({}).overridable && sinkSettings !! IDENTITY && "tenant_id" !in sinkSettings
    ensures GoodOptions(ProtoOptions(sinkSettings))
    ensures IDENTITY !! ProtoOptions(sinkSettings).mergeable
  {
    ProtoIdentityIsStable(sinkSettings);
    ProtoSetsAreDisjoint(sinkSettings);
    hide Stable;
  }
}
