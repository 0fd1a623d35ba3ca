/**
 Whose rule is it (rule_layers: tenant_rules, rule_for, unclaimed, owner; manager: claimed_rules,
 get_all_rules; schema_utils: rules_from_bundle_all)? The two ways to look a rule up, and the fan-out
 over every tenant's rules.
 */
module RuleLookup {
  import opened Options
  import opened Settings
  import opened Merging
  import opened RuleLayers

  const DEFAULT_TENANT := "default"

  /** What identifies a rule. */
  datatype RuleKey = RuleKey(platform: Option<Json>, datasource: Option<Json>)

  function KeyOf(r: Rule): RuleKey {
    RuleKey(Get(r, "platform"), Get(r, "datasource"))
  }

  /** A tenant's bundle.json names a rule. */
  datatype Claim = Claim(tenant: string, key: RuleKey)

  /** config.cue as the layers need it. */
  datatype Cue = Cue(o: RuleOptions, repoUrl: Rule -> string, rules: seq<Rule>)

  ghost predicate GoodCue(c: Cue) {
    GoodOptions(c.o) && IDENTITY !! c.o.mergeable
  }

  function Find(rules: seq<Rule>, key: RuleKey): Option<Rule> {
    if rules == [] then None
    else if KeyOf(rules[0]) == key then Some(rules[0])
    else Find(rules[1..], key)
  }

  ghost predicate UniqueKeys(rules: seq<Rule>) {
    forall i, j :: 0 <= i < j < |rules| ==> KeyOf(rules[i]) != KeyOf(rules[j])
  }

  /** The tenants a config.cue rule names. */
  function TenantsOf(cue: Rule): seq<Json> {
    if "tenants" in cue && cue["tenants"].List? then cue["tenants"].items else []
  }

  predicate Allowed(cue: Rule, tenant: string) {
    TenantsOf(cue) == [] || Str(tenant) in TenantsOf(cue)
  }

  /** Whose the rule is when no bundle.json names it. */
  function Owner(cue: Rule): string {
    if TenantsOf(cue) != [] && TenantsOf(cue)[0].Str? then TenantsOf(cue)[0].s else DEFAULT_TENANT
  }

  /** A config.cue rule's tenants are strings. */
  predicate TypedTenants(cue: Rule) {
    forall t :: t in TenantsOf(cue) ==> t.Str?
  }

  lemma OwnerIsAllowed(cue: Rule)
    requires TypedTenants(cue)
    ensures Allowed(cue, Owner(cue))
  {
    if TenantsOf(cue) != [] {
      assert TenantsOf(cue)[0] in TenantsOf(cue);
    }
  }

  /** An allowed tenant's bundle.json names the rule. */
  predicate Claimed(cue: Rule, claims: set<Claim>) {
    exists c :: c in claims && c.key == KeyOf(cue) && Allowed(cue, c.tenant)
  }

  /** The allowed tenants that do. */
  function Claimers(cue: Rule, claims: set<Claim>): set<string> {
    set c | c in claims && c.key == KeyOf(cue) && Allowed(cue, c.tenant) :: c.tenant
  }

  // -- tenant_rules -------------------------------------------------------------

  /** The tenant's bundle.json rules, each over config.cue's. */
  function NamedRules(c: Cue, bundleRules: seq<Rule>, tenant: string): seq<Rule> {
    if bundleRules == [] then []
    else
      var r := bundleRules[|bundleRules| - 1];
      var cue := Find(c.rules, KeyOf(r));
      NamedRules(c, bundleRules[..|bundleRules| - 1], tenant)
      + if cue.Some? && Allowed(cue.value, tenant)
          then [LayeredRule(c.o, c.repoUrl, cue.value, Some(r), tenant)] else []
  }

  /** The config.cue rules that fall to the tenant as their owner. */
  function OwnedRules(c: Cue, cues: seq<Rule>, tenant: string, claims: set<Claim>): seq<Rule> {
    if cues == [] then []
    else
      var cue := cues[|cues| - 1];
      OwnedRules(c, cues[..|cues| - 1], tenant, claims)
      + if !Claimed(cue, claims) && Owner(cue) == tenant then [LayeredRule(c.o, c.repoUrl, cue, None, tenant)] else []
  }

  function TenantRules(c: Cue, bundleRules: seq<Rule>, tenant: string, claims: set<Claim>): seq<Rule> {
    if c.rules == [] then bundleRules
    else NamedRules(c, bundleRules, tenant) + OwnedRules(c, c.rules, tenant, claims)
  }

  /** tenant_rules as it runs. */
  method ListTenantRules(c: Cue, bundleRules: seq<Rule>, tenant: string, claims: set<Claim>) returns (out: seq<Rule>)
    ensures out == TenantRules(c, bundleRules, tenant, claims)
  {
    hide LayeredRule, Find, Allowed, Claimed, Owner;
    if c.rules == [] {
      return bundleRules;
    }
    out := [];
    for i := 0 to |bundleRules|
      invariant out == NamedRules(c, bundleRules[..i], tenant)
    {
      assert bundleRules[..i + 1][..i] == bundleRules[..i];
      var cue := Find(c.rules, KeyOf(bundleRules[i]));
      if cue.Some? && Allowed(cue.value, tenant) {
        out := out + [LayeredRule(c.o, c.repoUrl, cue.value, Some(bundleRules[i]), tenant)];
      }
    }
    assert bundleRules[..|bundleRules|] == bundleRules;
    ghost var named := out;
    for i := 0 to |c.rules|
      invariant out == named + OwnedRules(c, c.rules[..i], tenant, claims)
    {
      assert c.rules[..i + 1][..i] == c.rules[..i];
      if !Claimed(c.rules[i], claims) && Owner(c.rules[i]) == tenant {
        out := out + [LayeredRule(c.o, c.repoUrl, c.rules[i], None, tenant)];
      }
    }
    assert c.rules[..|c.rules|] == c.rules;
  }

  // -- rule_for -----------------------------------------------------------------

  /** rule_for: the rule under *key* in the tenant, from its bundle.json rule (or None). */
  function RuleFor(c: Cue, key: RuleKey, bundleRule: Option<Rule>, tenant: string, claims: set<Claim>): Option<Rule> {
    if c.rules == [] then bundleRule
    else
      var cue := Find(c.rules, key);
      if bundleRule.Some? && (cue.None? || !Allowed(cue.value, tenant)) then None
      else if cue.None? then None
      else if bundleRule.None? && (tenant != Owner(cue.value) || Claimed(cue.value, claims)) then None
      else Some(LayeredRule(c.o, c.repoUrl, cue.value, bundleRule, tenant))
  }

  // -- Counting the rules under a key -------------------------------------------

  /** The rules under a key, in order. */
  function Under(rules: seq<Rule>, key: RuleKey): seq<Rule> {
    if rules == [] then []
    else
      var last := rules[|rules| - 1];
      Under(rules[..|rules| - 1], key) + if KeyOf(last) == key then [last] else []
  }

  lemma {:induction false} UnderConcat(a: seq<Rule>, b: seq<Rule>, key: RuleKey)
    ensures Under(a + b, key) == Under(a, key) + Under(b, key)
    decreases |b|
  {
    if b == [] {
      assert a + b == a;
    } else {
      assert (a + b)[..|a + b| - 1] == a + b[..|b| - 1];
      UnderConcat(a, b[..|b| - 1], key);
    }
  }

  lemma {:induction false} FindIsFirst(rules: seq<Rule>, key: RuleKey)
    ensures Find(rules, key) == if Under(rules, key) == [] then None else Some(Under(rules, key)[0])
  {
    if rules != [] {
      FindIsFirst(rules[1..], key);
      assert rules == [rules[0]] + rules[1..];
      UnderConcat([rules[0]], rules[1..], key);
      assert Under([rules[0]], key) == if KeyOf(rules[0]) == key then [rules[0]] else [];
    }
  }

  lemma {:induction false} UnderMembers(rules: seq<Rule>, key: RuleKey)
    ensures forall r :: r in Under(rules, key) <==> r in rules && KeyOf(r) == key
  {
    if rules != [] {
      UnderMembers(rules[..|rules| - 1], key);
      assert rules == rules[..|rules| - 1] + [rules[|rules| - 1]];
    }
  }

  lemma {:induction false} UniqueUnder(rules: seq<Rule>, key: RuleKey)
    requires UniqueKeys(rules)
    ensures |Under(rules, key)| <= 1
  {
    if rules != [] {
      var init, last := rules[..|rules| - 1], rules[|rules| - 1];
      UniqueUnder(init, key);
      UnderMembers(init, key);
      assert forall i :: 0 <= i < |init| ==> KeyOf(init[i]) != KeyOf(last);
      assert |Under(init, key)| > 0 ==> Under(init, key)[0] in Under(init, key);
    }
  }

  lemma LayeredKey(c: Cue, cue: Rule, bundleRule: Option<Rule>, tenant: string)
    requires GoodCue(c) && (bundleRule.Some? ==> KeyOf(bundleRule.value) == KeyOf(cue))
    ensures KeyOf(LayeredRule(c.o, c.repoUrl, cue, bundleRule, tenant)) == KeyOf(cue)
  {
    LayeredKeepsIdentity(c.o, c.repoUrl, cue, bundleRule, tenant, "platform");
    LayeredKeepsIdentity(c.o, c.repoUrl, cue, bundleRule, tenant, "datasource");
  }

  lemma FoundHasKey(rules: seq<Rule>, key: RuleKey)
    ensures Find(rules, key).Some? ==> KeyOf(Find(rules, key).value) == key && Find(rules, key).value in rules
  {
    FindIsFirst(rules, key);
    UnderMembers(rules, key);
  }

  lemma UnderOne(rule: Rule, key: RuleKey)
    ensures Under([rule], key) == if KeyOf(rule) == key then [rule] else []
  {
    assert Under([], key) == [];
  }

  /** A bundle.json rule config.cue knows and lets the tenant layer. */
  predicate Usable(c: Cue, r: Rule, tenant: string) {
    Find(c.rules, KeyOf(r)).Some? && Allowed(Find(c.rules, KeyOf(r)).value, tenant)
  }

  lemma {:induction false} NamedUnder(c: Cue, bundleRules: seq<Rule>, tenant: string, key: RuleKey)
    requires GoodCue(c) && UniqueKeys(bundleRules)
    ensures var r := Find(bundleRules, key);
            Under(NamedRules(c, bundleRules, tenant), key) ==
            if r.Some? && Usable(c, r.value, tenant)
            then [LayeredRule(c.o, c.repoUrl, Find(c.rules, KeyOf(r.value)).value, r, tenant)] else []
  {
    hide LayeredRule, GoodCue, Allowed, KeyOf;
    FindIsFirst(bundleRules, key);
    if bundleRules != [] {
      var init, r := bundleRules[..|bundleRules| - 1], bundleRules[|bundleRules| - 1];
      NamedUnder(c, init, tenant, key);
      FindIsFirst(init, key);
      UniqueUnder(bundleRules, key);
      FoundHasKey(c.rules, KeyOf(r));
      assert Under(init, key) + [] == Under(init, key);
      assert NamedRules(c, init, tenant) + [] == NamedRules(c, init, tenant);
      assert KeyOf(r) == key ==> |Under(bundleRules, key)| == |Under(init, key)| + 1;
      if Usable(c, r, tenant) {
        var layered := LayeredRule(c.o, c.repoUrl, Find(c.rules, KeyOf(r)).value, Some(r), tenant);
        LayeredKey(c, Find(c.rules, KeyOf(r)).value, Some(r), tenant);
        UnderConcat(NamedRules(c, init, tenant), [layered], key);
        UnderOne(layered, key);
      }
    }
  }

  lemma {:induction false} OwnedUnder(c: Cue, cues: seq<Rule>, tenant: string, claims: set<Claim>, key: RuleKey)
    requires GoodCue(c) && UniqueKeys(cues)
    ensures var cue := Find(cues, key);
            Under(OwnedRules(c, cues, tenant, claims), key) ==
            if cue.Some? && !Claimed(cue.value, claims) && Owner(cue.value) == tenant
            then [LayeredRule(c.o, c.repoUrl, cue.value, None, tenant)] else []
  {
    hide LayeredRule, GoodCue, Claimed;
    FindIsFirst(cues, key);
    if cues != [] {
      var init, cue := cues[..|cues| - 1], cues[|cues| - 1];
      OwnedUnder(c, init, tenant, claims, key);
      FindIsFirst(init, key);
      UniqueUnder(cues, key);
      assert Under(init, key) + [] == Under(init, key);
      assert KeyOf(cue) == key ==> |Under(cues, key)| == |Under(init, key)| + 1;
      assert Under(OwnedRules(c, init, tenant, claims), key) + [] == Under(OwnedRules(c, init, tenant, claims), key);
      assert OwnedRules(c, init, tenant, claims) + [] == OwnedRules(c, init, tenant, claims);
      if !Claimed(cue, claims) && Owner(cue) == tenant {
        var layered := LayeredRule(c.o, c.repoUrl, cue, None, tenant);
        LayeredKey(c, cue, None, tenant);
        UnderConcat(OwnedRules(c, init, tenant, claims), [layered], key);
        UnderOne(layered, key);
      }
    }
  }

  // -- The two lookups agree ----------------------------------------------------

  /** The claims contain the tenant's own bundle.json rules. */
  ghost predicate ClaimsOwn(claims: set<Claim>, bundleRules: seq<Rule>, tenant: string) {
    forall r :: r in bundleRules ==> Claim(tenant, KeyOf(r)) in claims
  }

  lemma ClaimedByOwn(cue: Rule, claims: set<Claim>, bundleRules: seq<Rule>, tenant: string)
    requires ClaimsOwn(claims, bundleRules, tenant) && Allowed(cue, tenant) && Find(bundleRules, KeyOf(cue)).Some?
    ensures Claimed(cue, claims)
  {
    FoundHasKey(bundleRules, KeyOf(cue));
    assert Claim(tenant, KeyOf(cue)) in claims;
  }

  /**
   The rules of a tenant under a key: its bundle.json rules over config.cue's when it may layer it, the
   rule it owns when no allowed tenant names it, none otherwise.
   */
  lemma TenantRulesUnder(c: Cue, bundleRules: seq<Rule>, tenant: string, claims: set<Claim>, key: RuleKey)
    requires GoodCue(c) && c.rules != [] && UniqueKeys(c.rules) && UniqueKeys(bundleRules)
    requires ClaimsOwn(claims, bundleRules, tenant) && forall r :: r in c.rules ==> TypedTenants(r)
    ensures Under(TenantRules(c, bundleRules, tenant, claims), key) ==
            match RuleFor(c, key, Find(bundleRules, key), tenant, claims)
            case None => []
            case Some(rule) => [rule]
  {
    hide GoodCue, LayeredRule, UniqueKeys, ClaimsOwn, TypedTenants, Allowed, Claimed, Owner, NamedRules, OwnedRules,
        Under, Find, KeyOf;
    var cue := Find(c.rules, key);
    NamedUnder(c, bundleRules, tenant, key);
    OwnedUnder(c, c.rules, tenant, claims, key);
    UnderConcat(NamedRules(c, bundleRules, tenant), OwnedRules(c, c.rules, tenant, claims), key);
    FoundHasKey(bundleRules, key);
    FoundHasKey(c.rules, key);
    if cue.Some? {
      OwnerIsAllowed(cue.value);
      if Find(bundleRules, key).Some? && Allowed(cue.value, tenant) {
        ClaimedByOwn(cue.value, claims, bundleRules, tenant);
      }
    }
  }

  /** rule_for and tenant_rules agree: one gives a rule exactly when the other lists it, and it is the same rule. */
  lemma LookupsAgree(c: Cue, bundleRules: seq<Rule>, tenant: string, claims: set<Claim>, key: RuleKey)
    requires GoodCue(c) && UniqueKeys(c.rules) && UniqueKeys(bundleRules)
    requires ClaimsOwn(claims, bundleRules, tenant) && forall r :: r in c.rules ==> TypedTenants(r)
    ensures RuleFor(c, key, Find(bundleRules, key), tenant, claims)
              == Find(TenantRules(c, bundleRules, tenant, claims), key)
  {
    FindIsFirst(TenantRules(c, bundleRules, tenant, claims), key);
    FindIsFirst(bundleRules, key);
    if c.rules != [] {
      TenantRulesUnder(c, bundleRules, tenant, claims, key);
    }
  }

  // -- The fan-out over tenants -------------------------------------------------

  function OwnersOf(cues: seq<Rule>): seq<string> {
    if cues == [] then [] else OwnersOf(cues[..|cues| - 1]) + [Owner(cues[|cues| - 1])]
  }

  /** The tenants the fan-out visits: the registered ones, "default" and every owner, each once. */
  function FanOutTenants(c: Cue, registered: seq<string>): seq<string> {
    Dedupe(registered + [DEFAULT_TENANT] + OwnersOf(c.rules))
  }

  /** The bundle.json rules loaded for a tenant. */
  function Loaded(bundles: map<string, seq<Rule>>, tenant: string): seq<Rule> {
    if tenant in bundles then bundles[tenant] else []
  }

  /** claimed_rules: what the loaded bundle.json files name. */
  function AllClaims(bundles: map<string, seq<Rule>>): set<Claim> {
    set t, r | t in bundles && r in bundles[t] :: Claim(t, KeyOf(r))
  }

  function StampTenant(rules: seq<Rule>, tenant: string): (r: seq<Rule>)
    ensures |r| == |rules|
  {
    seq(|rules|, i requires 0 <= i < |rules| =>
      if "tenant_id" in rules[i] then rules[i] else rules[i]["tenant_id" := Str(tenant)])
  }

  function FanOut(c: Cue, bundles: map<string, seq<Rule>>, tenants: seq<string>): seq<Rule> {
    if tenants == [] then []
    else
      var t := tenants[|tenants| - 1];
      FanOut(c, bundles, tenants[..|tenants| - 1]) + StampTenant(TenantRules(c, Loaded(bundles, t), t,
                                                                             AllClaims(bundles)), t)
  }

  /** rules_from_bundle_all over every tenant. */
  method RulesOfAll(c: Cue, registered: seq<string>, bundles: map<string, seq<Rule>>) returns (all: seq<Rule>)
    ensures all == FanOut(c, bundles, FanOutTenants(c, registered))
  {
    var tenants := FanOutTenants(c, registered);
    all := [];
    for i := 0 to |tenants|
      invariant all == FanOut(c, bundles, tenants[..i])
    {
      assert tenants[..i + 1][..i] == tenants[..i];
      var rules := ListTenantRules(c, Loaded(bundles, tenants[i]), tenants[i], AllClaims(bundles));
      all := all + StampTenant(rules, tenants[i]);
    }
    assert tenants[..|tenants|] == tenants;
  }

  /** The tenants of *tenants* under whom the rule for *key* runs. */
  function Holders(c: Cue, bundles: map<string, seq<Rule>>, tenants: seq<string>, key: RuleKey): seq<string> {
    if tenants == [] then []
    else
      var t := tenants[|tenants| - 1];
      Holders(c, bundles, tenants[..|tenants| - 1], key)
      + if RuleFor(c, key, Find(Loaded(bundles, t), key), t, AllClaims(bundles)).Some? then [t] else []
  }

  ghost predicate GoodBundles(c: Cue, bundles: map<string, seq<Rule>>) {
    && GoodCue(c) && c.rules != [] && UniqueKeys(c.rules)
    && (forall r :: r in c.rules ==> TypedTenants(r))
    && (forall t :: t in bundles ==> UniqueKeys(bundles[t]))
  }

  lemma {:induction false} StampedUnder(rules: seq<Rule>, tenant: string, key: RuleKey)
    ensures |Under(StampTenant(rules, tenant), key)| == |Under(rules, key)|
  {
    if rules != [] {
      var n := |rules| - 1;
      StampedUnder(rules[..n], tenant, key);
      assert StampTenant(rules, tenant)[..n] == StampTenant(rules[..n], tenant);
    }
  }

  lemma {:induction false} FanOutUnder(c: Cue, bundles: map<string, seq<Rule>>, tenants: seq<string>, key: RuleKey)
    requires GoodBundles(c, bundles)
    ensures |Under(FanOut(c, bundles, tenants), key)| == |Holders(c, bundles, tenants, key)|
  {
    if tenants != [] {
      var init, t := tenants[..|tenants| - 1], tenants[|tenants| - 1];
      FanOutUnder(c, bundles, init, key);
      var rules := TenantRules(c, Loaded(bundles, t), t, AllClaims(bundles));
      TenantRulesUnder(c, Loaded(bundles, t), t, AllClaims(bundles), key);
      StampedUnder(rules, t, key);
      UnderConcat(FanOut(c, bundles, init), StampTenant(rules, t), key);
    }
  }

  lemma {:induction false} DedupeDistinct<T>(items: seq<T>)
    ensures NoRepeats(Dedupe(items))
  {
    if items != [] {
      var init := items[..|items| - 1];
      DedupeDistinct(init);
      DedupeMembers(init);
      assert forall i :: 0 <= i < |Dedupe(init)| ==> Dedupe(init)[i] in Dedupe(init);
    }
  }

  lemma {:induction false} HoldersMembers(c: Cue, bundles: map<string, seq<Rule>>, tenants: seq<string>, key: RuleKey)
    ensures forall t :: t in Holders(c, bundles, tenants, key) <==>
              t in tenants && RuleFor(c, key, Find(Loaded(bundles, t), key), t, AllClaims(bundles)).Some?
  {
    if tenants != [] {
      HoldersMembers(c, bundles, tenants[..|tenants| - 1], key);
      assert tenants == tenants[..|tenants| - 1] + [tenants[|tenants| - 1]];
    }
  }

  lemma {:induction false} HoldersDistinct(c: Cue, bundles: map<string, seq<Rule>>, tenants: seq<string>, key: RuleKey)
    requires NoRepeats(tenants)
    ensures NoRepeats(Holders(c, bundles, tenants, key))
  {
    if tenants != [] {
      var init := tenants[..|tenants| - 1];
      HoldersDistinct(c, bundles, init, key);
      HoldersMembers(c, bundles, init, key);
      var r := Holders(c, bundles, init, key);
      assert tenants[|tenants| - 1] !in init;
      assert forall i :: 0 <= i < |r| ==> r[i] in r && r[i] in init;
    }
  }

  lemma {:induction false} OwnerListed(cues: seq<Rule>, cue: Rule)
    requires cue in cues
    ensures Owner(cue) in OwnersOf(cues)
  {
    if cue != cues[|cues| - 1] {
      assert cues == cues[..|cues| - 1] + [cues[|cues| - 1]];
      OwnerListed(cues[..|cues| - 1], cue);
    }
  }

  /** Under whom a config.cue rule runs: the tenants that may layer it and name it; its owner when there is none. */
  lemma WhoHolds(c: Cue, bundles: map<string, seq<Rule>>, cue: Rule, t: string)
    requires GoodBundles(c, bundles) && cue in c.rules
    ensures RuleFor(c, KeyOf(cue), Find(Loaded(bundles, t), KeyOf(cue)), t, AllClaims(bundles)).Some? <==>
            if Claimed(cue, AllClaims(bundles)) then Claim(t, KeyOf(cue)) in AllClaims(bundles) && Allowed(cue, t)
            else t == Owner(cue)
  {
    var key := KeyOf(cue);
    FindIsFirst(c.rules, key);
    UnderMembers(c.rules, key);
    UniqueUnder(c.rules, key);
    assert Find(c.rules, key) == Some(cue);
    FindIsFirst(Loaded(bundles, t), key);
    UnderMembers(Loaded(bundles, t), key);
    assert Find(Loaded(bundles, t), key).Some? <==> Claim(t, key) in AllClaims(bundles) by {
      if Claim(t, key) in AllClaims(bundles) {
        var r :| t in bundles && r in bundles[t] && KeyOf(r) == key;
        assert r in Under(Loaded(bundles, t), key);
      }
      if Find(Loaded(bundles, t), key).Some? {
        var r := Find(Loaded(bundles, t), key).value;
        assert r in Under(Loaded(bundles, t), key);
        assert t in bundles && r in bundles[t];
      }
    }
    OwnerIsAllowed(cue);
  }

  /**
   The fan-out lists every config.cue rule at least once, and a rule no allowed tenant names exactly once;
   a named one as often as there are allowed tenants that name it.
   */
  lemma FanOutCoversEveryRule(c: Cue, registered: seq<string>, bundles: map<string, seq<Rule>>, cue: Rule)
    requires GoodBundles(c, bundles) && cue in c.rules
    requires forall t :: t in bundles ==> t in registered
    ensures var all := FanOut(c, bundles, FanOutTenants(c, registered));
            && |Under(all, KeyOf(cue))| >= 1
            && (!Claimed(cue, AllClaims(bundles)) ==> |Under(all, KeyOf(cue))| == 1)
            && (Claimed(cue, AllClaims(bundles)) ==>
                  |Under(all, KeyOf(cue))| == |Claimers(cue, AllClaims(bundles))|)
  {
    hide RuleFor, FanOut, Holders, Under, GoodBundles, Find;
    var key, tenants := KeyOf(cue), FanOutTenants(c, registered);
    FanOutUnder(c, bundles, tenants, key);
    DedupeDistinct(registered + [DEFAULT_TENANT] + OwnersOf(c.rules));
    DedupeMembers(registered + [DEFAULT_TENANT] + OwnersOf(c.rules));
    HoldersDistinct(c, bundles, tenants, key);
    HoldersMembers(c, bundles, tenants, key);
    OwnerListed(c.rules, cue);
    forall t { WhoHolds(c, bundles, cue, t); }
    var holders := Holders(c, bundles, tenants, key);
    if Claimed(cue, AllClaims(bundles)) {
      var claimers := Claimers(cue, AllClaims(bundles));
      forall t ensures t in claimers <==> t in holders {
        WhoHolds(c, bundles, cue, t);
        assert t in claimers <==> Claim(t, key) in AllClaims(bundles) && Allowed(cue, t);
      }
      SizeOfDistinct(holders, claimers);
      var claim :| claim in AllClaims(bundles) && claim.key == key && Allowed(cue, claim.tenant);
      assert claim.tenant in claimers;
    } else {
      forall t ensures t in {Owner(cue)} <==> t in holders {
        WhoHolds(c, bundles, cue, t);
      }
      SizeOfDistinct(holders, {Owner(cue)});
    }
  }

  lemma {:induction false} SizeOfDistinct(items: seq<string>, members: set<string>)
    requires NoRepeats(items)
    requires forall x :: x in members <==> x in items
    ensures |items| == |members|
  {
    if items == [] {
      assert members == {};
    } else {
      var last := items[|items| - 1];
      assert items == items[..|items| - 1] + [last];
      SizeOfDistinct(items[..|items| - 1], members - {last});
    }
  }
}
