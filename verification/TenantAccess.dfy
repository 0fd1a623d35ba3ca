/** Which tenants a config.cue rule runs under, read off its "tenants" and the tenants' bundle.json files. */
module TenantAccess {
  import opened Options
  import opened Settings
  import opened Merging
  import opened RuleLayers
  import opened RuleLookup

  /** The tenant's bundle.json names the rule. */
  ghost predicate Names(bundles: map<string, seq<Rule>>, tenant: string, cue: Rule) {
    tenant in bundles && exists r :: r in bundles[tenant] && KeyOf(r) == KeyOf(cue)
  }

  ghost predicate RunsUnder(c: Cue, bundles: map<string, seq<Rule>>, cue: Rule, tenant: string) {
    RuleFor(c, KeyOf(cue), Find(Loaded(bundles, tenant), KeyOf(cue)), tenant, AllClaims(bundles)).Some?
  }

  lemma NamesIsClaim(bundles: map<string, seq<Rule>>, tenant: string, cue: Rule)
    ensures Names(bundles, tenant, cue) <==> Claim(tenant, KeyOf(cue)) in AllClaims(bundles)
  {
  }

  /**
   A rule that lists tenants runs under those of them whose bundle.json names it; while none of them does,
   under the first one. Under no other tenant does it ever run.
   */
  lemma ListedTenantsOnly(c: Cue, bundles: map<string, seq<Rule>>, cue: Rule, tenants: seq<Json>, t: string)
    requires GoodBundles(c, bundles) && cue in c.rules
    requires Get(cue, "tenants") == Some(List(tenants)) && tenants != []
    ensures RunsUnder(c, bundles, cue, t) <==>
            if exists other :: Str(other) in tenants && Names(bundles, other, cue)
            then Str(t) in tenants && Names(bundles, t, cue)
            else tenants[0] == Str(t)
  {
    assert TenantsOf(cue) == tenants;
    assert TypedTenants(cue) && tenants[0] in TenantsOf(cue);
    WhoHolds(c, bundles, cue, t);
    forall other { NamesIsClaim(bundles, other, cue); }
    if Claimed(cue, AllClaims(bundles)) {
      var claim :| claim in AllClaims(bundles) && claim.key == KeyOf(cue) && Allowed(cue, claim.tenant);
      assert Names(bundles, claim.tenant, cue);
    }
  }

  /** A rule that lists none runs under every tenant whose bundle.json names it; while none does, under "default". */
  lemma OpenToEveryTenant(c: Cue, bundles: map<string, seq<Rule>>, cue: Rule, t: string)
    requires GoodBundles(c, bundles) && cue in c.rules
    requires Get(cue, "tenants") in {None, Some(List([]))}
    ensures RunsUnder(c, bundles, cue, t) <==>
            if exists other :: Names(bundles, other, cue) then Names(bundles, t, cue) else t == "default"
  {
    assert TenantsOf(cue) == [];
    WhoHolds(c, bundles, cue, t);
    forall other { NamesIsClaim(bundles, other, cue); }
    if Claimed(cue, AllClaims(bundles)) {
      var claim :| claim in AllClaims(bundles) && claim.key == KeyOf(cue) && Allowed(cue, claim.tenant);
      assert Names(bundles, claim.tenant, cue);
    }
  }

  /** Every rule of the fan-out says whose it is; without config.cue rules, the bundle.json's tenant unless it says. */
  lemma {:induction false} FannedOutSayWhose(c: Cue, bundles: map<string, seq<Rule>>, tenants: seq<string>, r: Rule)
    requires r in FanOut(c, bundles, tenants)
    ensures "tenant_id" in r
    ensures c.rules == [] ==> exists t, own :: t in tenants && own in Loaded(bundles, t)
                                            && r == if "tenant_id" in own then own else own["tenant_id" := Str(t)]
    decreases |tenants|
  {
    var init, t := tenants[..|tenants| - 1], tenants[|tenants| - 1];
    assert tenants == init + [t];
    if r in FanOut(c, bundles, init) {
      FannedOutSayWhose(c, bundles, init, r);
    } else {
      var rules := TenantRules(c, Loaded(bundles, t), t, AllClaims(bundles));
      var i :| 0 <= i < |rules| && StampTenant(rules, t)[i] == r;
      assert rules[i] in rules;
    }
  }
}
