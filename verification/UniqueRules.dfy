/** unique_rules.checkUniqueRules: what the rule lookups rely on, that no two rules share a key. */
module UniqueRules {
  import opened Options
  import opened Settings
  import opened RuleLayers
  import RuleLookup

  /** A rule's platform and datasource. */
  datatype Named = Named(platform: string, datasource: string)

  function Text(r: Rule, field: string): string {
    if field in r && r[field].Str? then r[field].s else ""
  }

  /** The names a decoded rule has: an absent one reads as empty. */
  function NamesOf(r: Rule): Named {
    Named(Text(r, "platform"), Text(r, "datasource"))
  }

  ghost predicate Unique(rules: seq<Rule>) {
    forall i, j :: 0 <= i < j < |rules| ==> NamesOf(rules[i]) != NamesOf(rules[j])
  }

  /** The rule repeated and the first rule with its names. */
  datatype Repeat = Repeat(index: nat, first: nat)

  /**
   Refuses exactly the bundles with two rules of the same names, pointing at the first repeat and at what it
   repeats. What it accepts is unique for the lookups, which compare the settings as they stand in the file.
   */
  method CheckUniqueRules(rules: seq<Rule>) returns (refused: Option<Repeat>)
    ensures refused.None? <==> Unique(rules)
    ensures refused.None? ==> RuleLookup.UniqueKeys(rules)
    ensures refused.Some? ==>
              && refused.value.first < refused.value.index < |rules|
              && NamesOf(rules[refused.value.first]) == NamesOf(rules[refused.value.index])
              && Unique(rules[..refused.value.index])
  {
    var first: map<Named, nat> := map[];
    for i := 0 to |rules|
      invariant Unique(rules[..i])
      invariant forall n :: n in first <==> exists j :: 0 <= j < i && NamesOf(rules[j]) == n
      invariant forall n :: n in first ==> first[n] < i && NamesOf(rules[first[n]]) == n
    {
      var names := NamesOf(rules[i]);
      if names in first {
        return Some(Repeat(i, first[names]));
      }
      first := first[names := i];
      assert rules[..i + 1] == rules[..i] + [rules[i]];
      assert forall j :: 0 <= j < i ==> rules[..i][j] == rules[j];
    }
    assert rules[..|rules|] == rules;
    CheckedKeysAreUnique(rules);
    refused := None;
  }

  lemma CheckedKeysAreUnique(rules: seq<Rule>)
    requires Unique(rules)
    ensures RuleLookup.UniqueKeys(rules)
  {
    forall i, j | 0 <= i < j < |rules|
      ensures RuleLookup.KeyOf(rules[i]) != RuleLookup.KeyOf(rules[j])
    {
      assert NamesOf(rules[i]) != NamesOf(rules[j]);
    }
  }

  /**
   So bundles that were checked, read under rule.proto's declarations, meet all that the lookups and the
   fan-out ask: every config.cue rule runs, under its claimers or its owner.
   */
  lemma CheckedBundlesAreCovered(c: RuleLookup.Cue, registered: seq<string>, bundles: map<string, seq<Rule>>,
                                 sinkSettings: set<string>, cue: Rule)
    requires c.o == ProtoOptions(sinkSettings) && sinkSettings !! ProtoOptions({}).overridable
    requires sinkSettings !! IDENTITY && "tenant_id" !in sinkSettings
    requires c.rules != [] && Unique(c.rules) && forall t :: t in bundles ==> Unique(bundles[t])
    requires forall r :: r in c.rules ==> RuleLookup.TypedTenants(r)
    requires cue in c.rules && forall t :: t in bundles ==> t in registered
    ensures var rules := RuleLookup.FanOut(c, bundles, RuleLookup.FanOutTenants(c, registered));
            var claims, under := RuleLookup.AllClaims(bundles), RuleLookup.Under(rules, RuleLookup.KeyOf(cue));
            && (!RuleLookup.Claimed(cue, claims) ==> |under| == 1)
            && (RuleLookup.Claimed(cue, claims) ==> |under| == |RuleLookup.Claimers(cue, claims)|)
  {
    ProtoOptionsAreGood(sinkSettings);
    CheckedKeysAreUnique(c.rules);
    forall t | t in bundles ensures RuleLookup.UniqueKeys(bundles[t]) {
      CheckedKeysAreUnique(bundles[t]);
    }
    RuleLookup.FanOutCoversEveryRule(c, registered, bundles, cue);
  }

  /** A name left out repeats a blank one. */
  lemma AbsentIsBlank(a: Rule, b: Rule)
    requires forall field :: field in {"platform", "datasource"} ==>
               (if field in a then a[field] else Str("")) == (if field in b then b[field] else Str(""))
    ensures NamesOf(a) == NamesOf(b)
  {
    assert "platform" in {"platform", "datasource"} && "datasource" in {"platform", "datasource"};
  }
}
