/**
 manager.get_all_rules and manager.resolve_rule on a registry in which several clones answer to one tenant:
 its own from two repositories or branches, and those of tenants named after it with a colon.
 */
module RegistryLookups {
  import opened Options
  import opened Settings
  import opened RuleLayers
  import opened RuleLookup
  import CloneRegistry

  /** A clone as the registry lists it, in the order the entries were made. */
  datatype Clone = Clone(key: string, rules: seq<Rule>)

  predicate AnswersTo(e: Clone, tenant: string) {
    CloneRegistry.OfTenant(e.key, tenant)
  }

  /** The rules of the first clone that answers to the tenant. */
  function FirstRules(clones: seq<Clone>, tenant: string): seq<Rule> {
    if clones == [] then []
    else if AnswersTo(clones[0], tenant) then clones[0].rules
    else FirstRules(clones[1..], tenant)
  }

  /** The first rule under the key in any clone that answers to the tenant. */
  function Searched(clones: seq<Clone>, tenant: string, key: RuleKey): Option<Rule> {
    if clones == [] then None
    else if AnswersTo(clones[0], tenant) && Find(clones[0].rules, key).Some? then Find(clones[0].rules, key)
    else Searched(clones[1..], tenant, key)
  }

  /** get_all_rules: it stops at the first clone. */
  method GetAllRules(c: Cue, clones: seq<Clone>, tenant: string, claims: set<Claim>) returns (rules: seq<Rule>)
    ensures rules == TenantRules(c, FirstRules(clones, tenant), tenant, claims)
  {
    var own: seq<Rule> := [];
    var i := 0;
    while i < |clones|
      invariant i <= |clones| && own == [] && FirstRules(clones, tenant) == FirstRules(clones[i..], tenant)
    {
      if AnswersTo(clones[i], tenant) {
        own := clones[i].rules;
        break;
      }
      i := i + 1;
    }
    rules := ListTenantRules(c, own, tenant, claims);
  }

  /** resolve_rule: it goes on to the next clone until a rule is found. */
  method ResolveRule(c: Cue, clones: seq<Clone>, tenant: string, claims: set<Claim>, key: RuleKey)
    returns (rule: Option<Rule>)
    ensures rule == RuleFor(c, key, Searched(clones, tenant, key), tenant, claims)
  {
    var found: Option<Rule> := None;
    var i := 0;
    while i < |clones|
      invariant i <= |clones| && found == None && Searched(clones, tenant, key) == Searched(clones[i..], tenant, key)
    {
      if AnswersTo(clones[i], tenant) {
        found := Find(clones[i].rules, key);
      }
      if found.Some? {
        break;
      }
      i := i + 1;
    }
    rule := RuleFor(c, key, found, tenant, claims);
  }

  /** The two agree on the key under this config.cue and these claims. */
  predicate Agree(c: Cue, clones: seq<Clone>, tenant: string, claims: set<Claim>, key: RuleKey) {
    RuleFor(c, key, Searched(clones, tenant, key), tenant, claims)
    == Find(TenantRules(c, FirstRules(clones, tenant), tenant, claims), key)
  }

  /** What the lookups ask of config.cue and the claims. */
  ghost predicate Given(c: Cue, clones: seq<Clone>, tenant: string, claims: set<Claim>) {
    && GoodCue(c) && UniqueKeys(c.rules) && (forall r :: r in c.rules ==> TypedTenants(r))
    && ClaimsOwn(claims, FirstRules(clones, tenant), tenant)
  }

  /** The first clone that answers has the rule, or none does. */
  predicate FirstSaysIt(clones: seq<Clone>, tenant: string, key: RuleKey) {
    Find(FirstRules(clones, tenant), key).Some?
    || forall e :: e in clones && AnswersTo(e, tenant) ==> Find(e.rules, key) == None
  }

  lemma {:induction false} SearchedIsFirst(clones: seq<Clone>, tenant: string, key: RuleKey)
    ensures Searched(clones, tenant, key) == Find(FirstRules(clones, tenant), key) <==> FirstSaysIt(clones, tenant, key)
    ensures Searched(clones, tenant, key) == None <==>
            forall e :: e in clones && AnswersTo(e, tenant) ==> Find(e.rules, key) == None
  {
    if clones != [] {
      assert clones == [clones[0]] + clones[1..];
      SearchedIsFirst(clones[1..], tenant, key);
    }
  }

  /** With no rules in config.cue the two give what the bundles say. */
  lemma EmptyCueTells(clones: seq<Clone>, tenant: string, key: RuleKey) returns (c: Cue, claims: set<Claim>)
    ensures Given(c, clones, tenant, claims)
    ensures Agree(c, clones, tenant, claims, key) <==>
              Searched(clones, tenant, key) == Find(FirstRules(clones, tenant), key)
  {
    ProtoOptionsAreGood({});
    c := Cue(ProtoOptions({}), _ => "", []);
    claims := set r | r in FirstRules(clones, tenant) :: Claim(tenant, KeyOf(r));
  }

  /**
   get_all_rules and resolve_rule agree on a rule, under every config.cue and whatever else is claimed,
   exactly when the first clone that answers to the tenant has it or none of them does.
   */
  lemma CallersAgreeExactly(clones: seq<Clone>, tenant: string, key: RuleKey)
    requires UniqueKeys(FirstRules(clones, tenant))
    ensures (forall c, claims :: Given(c, clones, tenant, claims) ==> Agree(c, clones, tenant, claims, key))
       <==> FirstSaysIt(clones, tenant, key)
  {
    SearchedIsFirst(clones, tenant, key);
    if FirstSaysIt(clones, tenant, key) {
      forall c, claims | Given(c, clones, tenant, claims) ensures Agree(c, clones, tenant, claims, key) {
        LookupsAgree(c, FirstRules(clones, tenant), tenant, claims, key);
      }
    } else {
      var c, claims := EmptyCueTells(clones, tenant, key);
    }
  }

  /** A tenant's own clones answer to it, and among tenants without a colon in their names no others. */
  lemma OwnClonesAnswer(e: Clone, owner: string, slug: string, tenant: string)
    requires e.key == CloneRegistry.KeyOf(owner, slug)
    ensures tenant == owner ==> AnswersTo(e, tenant)
    ensures ':' !in tenant && ':' !in owner ==> (AnswersTo(e, tenant) <==> tenant == owner)
  {
    CloneRegistry.InvalidationReachesExactly(owner, slug, tenant);
    assert tenant + ":" <= owner ==> owner[|tenant|] == ':';
    assert owner + ":" <= tenant ==> tenant[|owner|] == ':';
  }

  /** The first of the clones that answer settles the list, even one without any rule. */
  lemma {:induction false} FirstAnswers(clones: seq<Clone>, tenant: string, i: nat)
    requires i < |clones| && AnswersTo(clones[i], tenant) && forall j :: 0 <= j < i ==> !AnswersTo(clones[j], tenant)
    ensures FirstRules(clones, tenant) == clones[i].rules
  {
    if i > 0 {
      assert forall j :: 0 <= j < i - 1 ==> clones[1..][j] == clones[j + 1];
      FirstAnswers(clones[1..], tenant, i - 1);
    }
  }

  /** The search for one rule stops at the first clone that answers and has it. */
  lemma {:induction false} FirstThatHasIt(clones: seq<Clone>, tenant: string, key: RuleKey, i: nat)
    requires i < |clones| && AnswersTo(clones[i], tenant) && Find(clones[i].rules, key).Some?
    requires forall j :: 0 <= j < i ==> !AnswersTo(clones[j], tenant) || Find(clones[j].rules, key) == None
    ensures Searched(clones, tenant, key) == Find(clones[i].rules, key)
  {
    if i > 0 {
      assert forall j :: 0 <= j < i - 1 ==> clones[1..][j] == clones[j + 1];
      FirstThatHasIt(clones[1..], tenant, key, i - 1);
    }
  }
}
