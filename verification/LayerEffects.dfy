/**
 What each layer brings about: for every option, the value the sync's rule has, read off config.cue's rule, the
 tenant's bundle.json and the repository's vartrack.json themselves.
 */
module LayerEffects {
  import opened Options
  import opened Settings
  import opened Merging
  import opened RuleLayers
  import opened Protection
  import opened PresetProtection
  import opened FlatProtection

  /** One entry of a map option; a prune that is just true or false has the one entry "enabled". */
  function EntryAt(layer: Rule, key: string, entry: string): Option<Json> {
    if key !in layer then None
    else
      match layer[key]
      case Obj(fields) => if entry in fields then Some(fields[entry]) else None
      case Bool(b) => if key == "prune" && entry == "enabled" then Some(Bool(b)) else None
      case _ => None
  }

  /** Of two layers, an option that does not merge is the upper one's. */
  lemma UpperLayerWins(mergeable: set<string>, lower: Rule, upper: Rule, key: string)
    requires key !in mergeable
    ensures Get(MergeChild(mergeable, lower, upper), key) == if key in upper then Some(upper[key]) else Get(lower, key)
  {
    MergedGet(mergeable, lower, upper, key);
  }

  /** Of a map option every entry is the upper layer's, or the lower one's where the upper has none. */
  lemma UpperEntryWins(mergeable: set<string>, lower: Rule, upper: Rule, key: string, entry: string)
    requires key in mergeable && Typed(mergeable, lower) && Typed(mergeable, upper)
    requires key == "prune" ==> entry != "protection"
    ensures EntryAt(MergeChild(mergeable, lower, upper), key, entry) ==
            if EntryAt(upper, key, entry).Some? then EntryAt(upper, key, entry) else EntryAt(lower, key, entry)
    ensures key in MergeChild(mergeable, lower, upper) <==> key in lower || key in upper
  {
    hide Dedupe;
    MergedGet(mergeable, lower, upper, key);
  }

  // -- Old option names ---------------------------------------------------------

  /** No two renames share a name. */
  predicate RenamesApart(renamed: seq<Renamed>) {
    forall i, j :: 0 <= i < |renamed| && 0 <= j < |renamed| ==>
      renamed[i].former != renamed[j].current
      && (i != j ==> renamed[i].former != renamed[j].former && renamed[i].current != renamed[j].current)
  }

  /** An option given under its former name counts under the current one, unless it is given there too. */
  lemma {:induction false} FormerNameCounts(rule: Rule, renamed: seq<Renamed>, i: nat)
    requires RenamesApart(renamed) && i < |renamed|
    ensures renamed[i].former !in RenameEach(rule, renamed)
    ensures Get(RenameEach(rule, renamed), renamed[i].current) ==
            if renamed[i].current in rule then Some(rule[renamed[i].current]) else Get(rule, renamed[i].former)
    decreases |renamed|
  {
    var first, rest := renamed[0], renamed[1..];
    var next := RenameOne(rule, first);
    assert forall j :: 0 <= j < |rest| ==> rest[j] == renamed[j + 1];
    if i == 0 {
      RenameEachKeeps(next, rest, first.former);
      RenameEachKeeps(next, rest, first.current);
    } else {
      FormerNameCounts(next, rest, i - 1);
    }
  }

  /** An option that was removed is dropped. */
  lemma RemovedIsDropped(o: RuleOptions, rule: Rule, key: string)
    requires key in o.removed && forall r :: r in o.renamed ==> r.former != key && r.current != key
    ensures key !in CurrentNames(o, rule)
  {
    RenameEachKeeps(rule - o.removed, o.renamed, key);
  }

  lemma ProtoRenamesAreApart(sinkSettings: set<string>)
    ensures RenamesApart(ProtoOptions(sinkSettings).renamed)
  {
  }

  // -- The three layers ---------------------------------------------------------

  /** What bundle.json may say: anything but what only config.cue sets. */
  function FromBundle(o: RuleOptions, bundleRule: Option<Rule>): Rule {
    if bundleRule.None? then map[]
    else var r := CurrentNames(o, bundleRule.value); map k | k in r && k !in o.adminOnly :: r[k]
  }

  /** What vartrack.json may say: only what a repository may override. */
  function FromRepo(o: RuleOptions, overrides: Rule): Rule {
    var r := CurrentNames(o, overrides); map k | k in r && k in o.overridable :: r[k]
  }

  /** The last of three that is given. */
  function Uppermost(cue: Option<Json>, bundle: Option<Json>, repo: Option<Json>): Option<Json> {
    if repo.Some? then repo else if bundle.Some? then bundle else cue
  }

  /** An option that neither merges nor is forced is that of the uppermost layer that may give it and does. */
  lemma OptionIsUppermost(o: RuleOptions, repoUrl: Rule -> string, cue: Rule, bundleRule: Option<Rule>, tenant: string,
                          overrides: Rule, key: string)
    requires GoodOptions(o) && key !in o.mergeable && key !in {"tenant_id", "repo_url"}
    requires key !in Forced(o, Base(o, repoUrl, cue))
    ensures Get(SyncRule(o, repoUrl, cue, bundleRule, tenant, overrides), key) ==
            Uppermost(Get(CurrentNames(o, cue), key), Get(FromBundle(o, bundleRule), key),
                      Get(FromRepo(o, overrides), key))
  {
    var base, layer, repo := Base(o, repoUrl, cue), BundleLayer(o, bundleRule), RepoLayer(o, overrides);
    var layered := LayeredRule(o, repoUrl, cue, bundleRule, tenant);
    assert Get(base, key) == Get(CurrentNames(o, cue), key);
    assert Get(layer, key) == Get(FromBundle(o, bundleRule), key);
    assert Get(repo, key) == Get(FromRepo(o, overrides), key);
    LayeredAt(o, repoUrl, cue, bundleRule, tenant, key);
    SameForce(o, repoUrl, cue, bundleRule, tenant);
    OverriddenAt(o, layered, overrides, key);
    hide Base, BundleLayer, RepoLayer, LayeredRule, MergeChild, FromBundle, FromRepo, CurrentNames, Forced;
    UpperLayerWins(o.mergeable, base, layer, key);
    UpperLayerWins(o.mergeable, layered, repo, key);
  }

  /** Of a map option that is not forced, every entry is that of the uppermost layer that may give it and does. */
  lemma EntryIsUppermost(o: RuleOptions, repoUrl: Rule -> string, cue: Rule, bundleRule: Option<Rule>, tenant: string,
                         overrides: Rule, key: string, entry: string)
    requires PlainMergeable(o) && key in o.mergeable && (key == "prune" ==> entry != "protection")
    requires Typed(o.mergeable, cue) && Typed(o.mergeable, overrides)
    requires bundleRule.Some? ==> Typed(o.mergeable, bundleRule.value)
    requires key !in Forced(o, Base(o, repoUrl, cue)) && Typed(o.mergeable, Forced(o, Base(o, repoUrl, cue)))
    ensures EntryAt(SyncRule(o, repoUrl, cue, bundleRule, tenant, overrides), key, entry) ==
            Uppermost(EntryAt(CurrentNames(o, cue), key, entry), EntryAt(FromBundle(o, bundleRule), key, entry),
                      EntryAt(FromRepo(o, overrides), key, entry))
  {
    var base, layer, repo := Base(o, repoUrl, cue), BundleLayer(o, bundleRule), RepoLayer(o, overrides);
    var layered := LayeredRule(o, repoUrl, cue, bundleRule, tenant);
    var rule := SyncRule(o, repoUrl, cue, bundleRule, tenant, overrides);
    var layers := Layers(o, repoUrl, cue, bundleRule, overrides);
    LayersAreTyped(o, repoUrl, cue, bundleRule, overrides);
    assert Typed(o.mergeable, layers[0]) && Typed(o.mergeable, layers[1]) && Typed(o.mergeable, layers[2]);
    LayeredIsTyped(o, repoUrl, cue, bundleRule, tenant);
    SameEntry(base, CurrentNames(o, cue), key, entry);
    SameEntry(layer, FromBundle(o, bundleRule), key, entry);
    SameEntry(repo, FromRepo(o, overrides), key, entry);
    LayeredAt(o, repoUrl, cue, bundleRule, tenant, key);
    SameEntry(layered, MergeChild(o.mergeable, base, layer), key, entry);
    SameForce(o, repoUrl, cue, bundleRule, tenant);
    OverriddenAt(o, layered, overrides, key);
    assert Get(repo, key).None? ==> EntryAt(repo, key, entry).None?;
    hide Base, BundleLayer, RepoLayer, LayeredRule, MergeChild, FromBundle, FromRepo, CurrentNames, Forced, Typed;
    UpperEntryWins(o.mergeable, base, layer, key, entry);
    if repo == map[] {
      SameEntry(rule, layered, key, entry);
    } else {
      UpperEntryWins(o.mergeable, layered, repo, key, entry);
      SameEntry(rule, MergeChild(o.mergeable, layered, repo), key, entry);
    }
  }

  lemma SameEntry(a: Rule, b: Rule, key: string, entry: string)
    requires Get(a, key) == Get(b, key)
    ensures EntryAt(a, key, entry) == EntryAt(b, key, entry)
  {
  }

  /** The rule is its tenant's, unless config.cue or bundle.json says whose, and reads the repository they name. */
  lemma TenantAndRepository(o: RuleOptions, repoUrl: Rule -> string, cue: Rule, bundleRule: Option<Rule>,
                            tenant: string, overrides: Rule)
    requires GoodOptions(o) && o.mergeable !! {"tenant_id", "repo_url"} && o.overridable !! {"tenant_id", "repo_url"}
    requires Forced(o, Base(o, repoUrl, cue)).Keys !! {"tenant_id", "repo_url"}
    ensures var rule, said := SyncRule(o, repoUrl, cue, bundleRule, tenant, overrides), FromBundle(o, bundleRule);
            var named := CurrentNames(o, cue);
            && Get(rule, "tenant_id") == (if "tenant_id" in said then Get(said, "tenant_id")
                                          else if "tenant_id" in named then Get(named, "tenant_id")
                                          else Some(Str(tenant)))
            && Get(rule, "repo_url") == (if "repo_url" in said then Get(said, "repo_url")
                                         else if repoUrl(named) != "" then Some(Str(repoUrl(named)))
                                         else Get(named, "repo_url"))
  {
    var base, layer, repo := Base(o, repoUrl, cue), BundleLayer(o, bundleRule), RepoLayer(o, overrides);
    var layered := LayeredRule(o, repoUrl, cue, bundleRule, tenant);
    SameForce(o, repoUrl, cue, bundleRule, tenant);
    forall key | key in {"tenant_id", "repo_url"}
      ensures Get(SyncRule(o, repoUrl, cue, bundleRule, tenant, overrides), key) == Get(layered, key)
    {
      OverriddenAt(o, layered, overrides, key);
      UpperLayerWins(o.mergeable, layered, repo, key);
    }
    UpperLayerWins(o.mergeable, base, layer, "tenant_id");
    UpperLayerWins(o.mergeable, base, layer, "repo_url");
    LayeredAt(o, repoUrl, cue, bundleRule, tenant, "repo_url");
    TenantOfLayered(o, repoUrl, cue, bundleRule, tenant);
  }

  lemma TenantOfLayered(o: RuleOptions, repoUrl: Rule -> string, cue: Rule, bundleRule: Option<Rule>, tenant: string)
    requires GoodOptions(o) && "tenant_id" !in Forced(o, Base(o, repoUrl, cue))
    ensures var merged := MergeChild(o.mergeable, Base(o, repoUrl, cue), BundleLayer(o, bundleRule));
            Get(LayeredRule(o, repoUrl, cue, bundleRule, tenant), "tenant_id")
            == if "tenant_id" in merged then Get(merged, "tenant_id") else Some(Str(tenant))
  {
    MergeKeeps(o.mergeable, Base(o, repoUrl, cue), BundleLayer(o, bundleRule), "force");
    hide MergeChild, Base, BundleLayer;
  }

  /** What rule.proto lets a vartrack.json say: how its repository's files are read and written. */
  const FOR_REPOSITORIES := {"file_name", "root_key", "variables_map", "branch_map", "file_path_map",
                             "branch_as_env", "pr_as_env", "tag_as_env", "sync_mode", "prune", "dry_run",
                             "strict_validation"}

  /** A vartrack.json says all of this under its current name, and nothing else. */
  lemma RepoMaySay(sinkSettings: set<string>, said: Rule, key: string)
    ensures var o := ProtoOptions(sinkSettings);
            Get(FromRepo(o, said), key) == if key in FOR_REPOSITORIES then Get(CurrentNames(o, said), key) else None
  {
    hide CurrentNames;
    assert ProtoOptions(sinkSettings).overridable == FOR_REPOSITORIES;
  }

  /** A bundle.json says anything but how a sink is reached and what config.cue keeps to itself. */
  lemma BundleMaySay(sinkSettings: set<string>, said: Rule, key: string)
    ensures var o := ProtoOptions(sinkSettings);
            key in FromBundle(o, Some(said)) <==>
              && key in CurrentNames(o, said) && key !in sinkSettings
              && key !in {"tenants", "repositories", "exclude_repositories", "secret_manager", "force", "overrides",
                          "self_heal"}
  {
    hide CurrentNames;
  }

  /** And nobody says what was removed. */
  lemma RemovedOptions(sinkSettings: set<string>, said: Rule)
    ensures "secrets" !in CurrentNames(ProtoOptions(sinkSettings), said)
    ensures "retry_backoff" !in CurrentNames(ProtoOptions(sinkSettings), said)
  {
    RemovedIsDropped(ProtoOptions(sinkSettings), said, "secrets");
    RemovedIsDropped(ProtoOptions(sinkSettings), said, "retry_backoff");
  }
}
