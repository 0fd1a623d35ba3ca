/** payload.extract_prune_config: a rule's `prune` setting in any of its forms. */
module PruneConfigs {
  import opened Options
  import opened Settings

  datatype PruneConfig = PruneConfig(enabled: bool, dryRun: bool, protection: seq<Json>)

  /** `rule.get(key, default)`. */
  function GetOr(fields: map<string, Json>, key: string, default: Json): Json {
    if key in fields then fields[key] else default
  }

  /** `list(value or default)`, for settings that are lists when present. */
  function ListOr(value: Option<Json>, default: seq<Json>): seq<Json> {
    if value.Some? && Truthy(value.value) then (if value.value.List? then value.value.items else []) else default
  }

  function ExtractPruneConfig(rule: Rule): PruneConfig {
    var raw := GetOr(rule, "prune", Bool(false));
    var dryRun := Truthy(GetOr(rule, "dry_run_prune", Bool(false)));
    var protection := ListOr(Get(rule, "prune_protection"), []);
    if raw.Obj? then
      PruneConfig(Truthy(GetOr(raw.fields, "enabled", Bool("dry_run" in raw.fields))),
                  Truthy(GetOr(raw.fields, "dry_run", Bool(dryRun))),
                  ListOr(Get(raw.fields, "protection"), protection))
    else
      PruneConfig(Truthy(raw), dryRun, protection)
  }

  /** When a rule prunes, form by form: a block that says nothing else means it when it sets dry_run. */
  lemma EnabledMeans(rule: Rule)
    ensures "prune" !in rule ==> !ExtractPruneConfig(rule).enabled
    ensures "prune" in rule && rule["prune"].Bool? ==> ExtractPruneConfig(rule).enabled == rule["prune"].b
    ensures "prune" in rule && rule["prune"].Obj? ==>
              var block := rule["prune"].fields;
              && ("enabled" in block && block["enabled"].Bool? ==>
                    ExtractPruneConfig(rule).enabled == block["enabled"].b)
              && ("enabled" !in block ==> (ExtractPruneConfig(rule).enabled <==> "dry_run" in block))
  {
  }

  /** When it only reports: by the block's dry_run, or the former dry_run_prune where the block has none. */
  lemma DryRunMeans(rule: Rule)
    ensures var block := if "prune" in rule && rule["prune"].Obj? then rule["prune"].fields else map[];
            && ("dry_run" in block && block["dry_run"].Bool? ==> ExtractPruneConfig(rule).dryRun == block["dry_run"].b)
            && ("dry_run" !in block && "dry_run_prune" in rule && rule["dry_run_prune"].Bool? ==>
                  ExtractPruneConfig(rule).dryRun == rule["dry_run_prune"].b)
            && ("dry_run" !in block && "dry_run_prune" !in rule ==> !ExtractPruneConfig(rule).dryRun)
  {
  }
}
