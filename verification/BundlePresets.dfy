/** presets.resolve_bundle_rules: the rules of a bundle.json with the file's presets and their own resolved. */
module BundlePresets {
  import opened Options
  import opened Settings
  import opened Merging
  import opened Presets

  /**
   What the file holds: a list, an object with "rules" and perhaps "extends", or neither. An entry that is
   no object is None.
   */
  datatype Bundle =
    | RuleList(rules: seq<Option<Rule>>)
    | RuleObject(presets: seq<string>, rules: seq<Option<Rule>>)
    | Neither

  function FileExtends(b: Bundle): seq<string> {
    if b.RuleObject? then b.presets else []
  }

  /** The file's presets first, then the rule's. */
  function Wanted(top: seq<string>, rule: Rule): Option<seq<string>> {
    match ExtendsOf(rule)
    case None => None
    case Some(names) => Some(top + names)
  }

  function Asking(rule: Rule, wanted: seq<string>): Rule {
    rule["extends" := List(Strings(wanted))]
  }

  function Strings(names: seq<string>): seq<Json> {
    if names == [] then [] else [Str(names[0])] + Strings(names[1..])
  }

  function Names(u: Universe, wanted: seq<string>): set<string> {
    AllNames(u) + set n | n in wanted
  }

  lemma {:induction false} StringsAreNames(names: seq<string>)
    ensures NamesOf(Strings(names)) == Some(names)
    ensures |Strings(names)| == |names|
  {
    if names != [] {
      StringsAreNames(names[1..]);
      assert names == [names[0]] + names[1..];
    }
  }

  lemma AskingExtends(u: Universe, rule: Rule, wanted: seq<string>)
    ensures ExtendsOf(Asking(rule, wanted)) == Some(wanted)
    ensures NamesIn(Asking(rule, wanted)) <= Names(u, wanted)
    ensures Own(Asking(rule, wanted)) == Own(rule)
  {
    StringsAreNames(wanted);
  }

  /** One rule: left as it is when nothing is wanted, refused when it is not known where presets live. */
  function RuleResult(u: Universe, mergeable: set<string>, origin: Option<Origin>, top: seq<string>, rule: Rule):
    Result<Rule>
  {
    match Wanted(top, rule)
    case None => Failed
    case Some(wanted) =>
      if wanted == [] then Ok(rule)
      else if origin.None? then Failed
      else
        AskingExtends(u, rule, wanted);
        Resolve(u, mergeable, Asking(rule, wanted), [], origin.value, Names(u, wanted))
  }

  /** The objects among the entries. */
  function Objects(items: seq<Option<Rule>>): seq<Rule> {
    if items == [] then []
    else Objects(items[..|items| - 1]) + match items[|items| - 1] case None => [] case Some(rule) => [rule]
  }

  ghost predicate EachResolves(u: Universe, mergeable: set<string>, origin: Option<Origin>, top: seq<string>,
                               rules: seq<Rule>, out: seq<Rule>)
  {
    && |out| == |rules|
    && forall i :: 0 <= i < |rules| ==> RuleResult(u, mergeable, origin, top, rules[i]) == Ok(out[i])
  }

  lemma OneMoreResolves(u: Universe, mergeable: set<string>, origin: Option<Origin>, top: seq<string>,
                        rules: seq<Rule>, out: seq<Rule>, rule: Rule, resolved: Rule)
    requires EachResolves(u, mergeable, origin, top, rules, out)
    requires RuleResult(u, mergeable, origin, top, rule) == Ok(resolved)
    ensures EachResolves(u, mergeable, origin, top, rules + [rule], out + [resolved])
  {
    hide RuleResult;
  }

  /** All rules, or none: one that cannot be resolved fails the file. A file of neither form fails. */
  method ResolveBundleRules(u: Universe, mergeable: set<string>, origin: Option<Origin>, bundle: Bundle)
    returns (r: Result<seq<Rule>>)
    ensures bundle.Neither? ==> r == Failed
    ensures !bundle.Neither? ==>
              match r
              case Ok(out) => EachResolves(u, mergeable, origin, FileExtends(bundle), Objects(bundle.rules), out)
              case Failed => exists rule :: rule in Objects(bundle.rules)
                                         && RuleResult(u, mergeable, origin, FileExtends(bundle), rule) == Failed
  {
    if bundle.Neither? {
      return Failed;
    }
    var resolver := new Resolver(u, mergeable);
    var out: seq<Rule> := [];
    ObjectsStart(bundle.rules);
    assert EachResolves(u, mergeable, origin, FileExtends(bundle), [], []);
    hide RuleResult, Resolver.Valid, Objects, EachResolves;
    for i := 0 to |bundle.rules|
      invariant resolver.Valid() && resolver.u == u && resolver.mergeable == mergeable
      invariant EachResolves(u, mergeable, origin, FileExtends(bundle), Objects(bundle.rules[..i]), out)
    {
      ObjectsUpTo(bundle.rules, i + 1);
      ObjectsNext(bundle.rules, i);
      if bundle.rules[i].None? {
        continue;
      }
      var resolved := ResolveRule(resolver, origin, FileExtends(bundle), bundle.rules[i].value);
      if resolved.Failed? {
        return Failed;
      }
      OneMoreResolves(u, mergeable, origin, FileExtends(bundle), Objects(bundle.rules[..i]), out,
                      bundle.rules[i].value, resolved.value);
      out := out + [resolved.value];
    }
    assert bundle.rules[..|bundle.rules|] == bundle.rules;
    r := Ok(out);
  }

  method ResolveRule(resolver: Resolver, origin: Option<Origin>, top: seq<string>, rule: Rule) returns (r: Result<Rule>)
    requires resolver.Valid()
    modifies resolver
    ensures resolver.Valid()
    ensures r == RuleResult(resolver.u, resolver.mergeable, origin, top, rule)
  {
    var wanted := Wanted(top, rule);
    if wanted == None {
      return Failed;
    }
    if wanted.value == [] {
      return Ok(rule);
    }
    if origin == None {
      return Failed;
    }
    AskingExtends(resolver.u, rule, wanted.value);
    r := resolver.ResolveConfig(Asking(rule, wanted.value), [], origin.value, Names(resolver.u, wanted.value));
  }

  lemma ObjectsStart(items: seq<Option<Rule>>)
    ensures Objects(items[..0]) == []
  {
  }

  lemma ObjectsNext(items: seq<Option<Rule>>, i: nat)
    requires i < |items|
    ensures Objects(items[..i + 1])
         == Objects(items[..i]) + match items[i] case None => [] case Some(rule) => [rule]
  {
    assert items[..i + 1][..i] == items[..i];
  }

  lemma {:induction false} ObjectsUpTo(items: seq<Option<Rule>>, n: nat)
    requires n <= |items|
    ensures forall rule :: rule in Objects(items[..n]) ==> rule in Objects(items)
    decreases |items| - n
  {
    if n < |items| {
      assert items[..n + 1][..n] == items[..n];
      ObjectsUpTo(items, n + 1);
    } else {
      assert items[..n] == items;
    }
  }

  lemma {:induction false} NameBodiesConcat(u: Universe, a: seq<string>, b: seq<string>, chain: seq<string>,
                                            origin: Origin, all: set<string>)
    requires AllNames(u) <= all && (forall n :: n in a + b ==> n in all)
    requires forall n :: n in a || n in b ==> n in all
    ensures NameBodies(u, a + b, chain, origin, all) ==
            var x, y := NameBodies(u, a, chain, origin, all), NameBodies(u, b, chain, origin, all);
            if x.Failed? || y.Failed? then Failed else Ok(x.value + y.value)
    decreases |b|
  {
    if b == [] {
      assert a + b == a;
      if NameBodies(u, a, chain, origin, all).Ok? {
        assert NameBodies(u, a, chain, origin, all).value + [] == NameBodies(u, a, chain, origin, all).value;
      }
    } else {
      var init := b[..|b| - 1];
      assert (a + b)[..|a + b| - 1] == a + init;
      NameBodiesConcat(u, a, init, chain, origin, all);
      var x, y, y' := NameBodies(u, a, chain, origin, all), NameBodies(u, init, chain, origin, all),
          NameBodies(u, b, chain, origin, all);
      if x.Ok? && y'.Ok? {
        var more := y'.value[|y.value|..];
        assert y'.value == y.value + more;
        assert x.value + y.value + more == x.value + (y.value + more);
      }
    }
  }

  /**
   A rule that asks for presets is its own settings over its presets over the file's, each preset's body
   after those of the presets it extends; and it fails exactly when one of these presets cannot be loaded.
   */
  lemma RuleIsLaidOverPresets(u: Universe, mergeable: set<string>, origin: Origin, top: seq<string>, rule: Rule)
    requires TypedUniverse(u, mergeable) && Typed(mergeable, rule)
    requires ExtendsOf(rule).Some? && top + ExtendsOf(rule).value != []
    ensures var names := ExtendsOf(rule).value;
            var all := Names(u, top + names);
            (forall n :: n in top || n in names ==> n in all) &&
            RuleResult(u, mergeable, Some(origin), top, rule) ==
            var file, own := NameBodies(u, top, [], origin, all), NameBodies(u, names, [], origin, all);
            if file.Failed? || own.Failed? then Failed
            else Ok(MergeChild(mergeable, MergeChild(mergeable, Fold(mergeable, file.value),
                                                     Fold(mergeable, own.value)), Own(rule)))
  {
    var names := ExtendsOf(rule).value;
    var wanted := top + names;
    var all := Names(u, wanted);
    AskingExtends(u, rule, wanted);
    assert forall n :: n in top || n in names ==> n in wanted;
    ResolveNamesIsFold(u, mergeable, wanted, [], origin, all);
    NameBodiesConcat(u, top, names, [], origin, all);
    if NameBodies(u, wanted, [], origin, all).Ok? {
      NameBodiesAreTyped(u, mergeable, top, [], origin, all);
      NameBodiesAreTyped(u, mergeable, names, [], origin, all);
      FoldConcat(mergeable, NameBodies(u, top, [], origin, all).value, NameBodies(u, names, [], origin, all).value);
    }
  }
}
