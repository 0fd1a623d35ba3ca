/** What extending presets brings about: whose value an option has, read off the preset files themselves. */
module PresetEffects {
  import opened Options
  import opened Settings
  import opened Merging
  import opened Presets
  import opened BundlePresets
  import opened LayerEffects

  /** The settings' own value wins over every preset's. */
  lemma OwnSettingsWin(u: Universe, mergeable: set<string>, config: Rule, chain: seq<string>, origin: Origin,
                       all: set<string>, key: string)
    requires AllNames(u) <= all && NamesIn(config) <= all
    requires Resolve(u, mergeable, config, chain, origin, all).Ok?
    requires key in config && key != "extends" && key !in mergeable
    ensures Get(Resolve(u, mergeable, config, chain, origin, all).value, key) == Some(config[key])
  {
    var below := ResolveNames(u, mergeable, ExtendsOf(config).value, chain, origin, all).value;
    UpperLayerWins(mergeable, below, Own(config), key);
  }

  /** Of several presets the last one that sets an option wins; one already in the chain adds nothing. */
  lemma LastPresetWins(u: Universe, mergeable: set<string>, names: seq<string>, name: string, chain: seq<string>,
                       origin: Origin, all: set<string>, key: string)
    requires AllNames(u) <= all && (forall n :: n in names + [name] ==> n in all) && key !in mergeable
    requires ResolveNames(u, mergeable, names + [name], chain, origin, all).Ok?
    ensures ResolveNames(u, mergeable, names, chain, origin, all).Ok?
    ensures var before := ResolveNames(u, mergeable, names, chain, origin, all).value;
            var alone := ResolveNames(u, mergeable, [name], chain, origin, all);
            && alone.Ok?
            && Get(ResolveNames(u, mergeable, names + [name], chain, origin, all).value, key)
               == if key in alone.value then Some(alone.value[key]) else Get(before, key)
    ensures name in chain ==> ResolveNames(u, mergeable, [name], chain, origin, all) == Ok(map[])
  {
    assert (names + [name])[..|names|] == names;
    assert ResolveNames(u, mergeable, [], chain, origin, all) == Ok(map[]);
    assert [name][..0] == [];
    var before := ResolveNames(u, mergeable, names, chain, origin, all).value;
    if name !in chain {
      var loaded := Load(u, name, origin).value;
      LoadedNames(u, name, origin);
      Shrinks(all, chain, name);
      var preset := Resolve(u, mergeable, loaded.0, chain + [name], loaded.1, all).value;
      UpperLayerWins(mergeable, before, preset, key);
      UpperLayerWins(mergeable, map[], preset, key);
    }
  }

  /** A preset's description stays with the preset: settings have the one they give themselves, or none. */
  lemma {:induction false} DescriptionIsOwn(u: Universe, mergeable: set<string>, config: Rule, chain: seq<string>,
                                            origin: Origin, all: set<string>)
    requires AllNames(u) <= all && NamesIn(config) <= all
    requires Resolve(u, mergeable, config, chain, origin, all).Ok?
    ensures Get(Resolve(u, mergeable, config, chain, origin, all).value, "description") == Get(config, "description")
    decreases |all - Chained(chain)|, 1, 0
  {
    var names := ExtendsOf(config).value;
    NamesHaveNoDescription(u, mergeable, names, chain, origin, all);
    var below := ResolveNames(u, mergeable, names, chain, origin, all).value;
    MergedGet(mergeable, below, Own(config), "description");
  }

  lemma {:induction false} NamesHaveNoDescription(u: Universe, mergeable: set<string>, names: seq<string>,
                                                  chain: seq<string>, origin: Origin, all: set<string>)
    requires AllNames(u) <= all && forall n :: n in names ==> n in all
    requires ResolveNames(u, mergeable, names, chain, origin, all).Ok?
    ensures "description" !in ResolveNames(u, mergeable, names, chain, origin, all).value
    decreases |all - Chained(chain)|, 0, |names|
  {
    if names != [] {
      var init, name := names[..|names| - 1], names[|names| - 1];
      NamesHaveNoDescription(u, mergeable, init, chain, origin, all);
      if name !in chain {
        var loaded := Load(u, name, origin).value;
        LoadedNames(u, name, origin);
        Shrinks(all, chain, name);
        DescriptionIsOwn(u, mergeable, loaded.0, chain + [name], loaded.1, all);
      }
    }
  }

  /** Settings that extend one preset, which is the file *at* seen from the naming file's server. */
  ghost predicate ExtendsOne(u: Universe, config: Rule, origin: Origin, name: string, at: Located) {
    ExtendsOf(config) == Some([name]) && u.locate(name, origin) == Some(at) && at.file in u.files
  }

  /** What the settings have that extend *name* alone. */
  lemma OneNameResolves(u: Universe, mergeable: set<string>, config: Rule, origin: Origin, all: set<string>,
                        name: string, at: Located, chain: seq<string>)
    requires AllNames(u) <= all && NamesIn(config) <= all && ExtendsOne(u, config, origin, name, at) && name !in chain
    ensures NamesIn(u.files[at.file] - {"description"}) <= all
    ensures var preset := Resolve(u, mergeable, u.files[at.file] - {"description"}, chain + [name], at.origin, all);
            Resolve(u, mergeable, config, chain, origin, all) ==
            if preset.Ok? then Ok(MergeChild(mergeable, MergeChild(mergeable, map[], preset.value), Own(config)))
            else Failed
  {
    LoadedNames(u, name, origin);
    Shrinks(all, chain, name);
    assert [name][..0] == [] && name in [name];
    assert name in NamesIn(config);
    assert ResolveNames(u, mergeable, [], chain, origin, all) == Ok(map[]);
  }

  /**
   A preset's own presets are looked up from where the preset is and lie beneath it; a preset that is
   extended again by one it extends is not read again.
   */
  lemma PresetOfPreset(u: Universe, mergeable: set<string>, config: Rule, origin: Origin, all: set<string>,
                       name: string, at: Located, inner: string, below: Located, key: string)
    requires AllNames(u) <= all && NamesIn(config) <= all && ExtendsOne(u, config, origin, name, at)
    requires ExtendsOne(u, u.files[at.file], at.origin, inner, below)
    requires inner != name ==> ExtendsOf(u.files[below.file]) in {Some([]), Some([name]), Some([inner])}
    requires key !in mergeable && key !in {"extends", "description"}
    ensures var r := Resolve(u, mergeable, config, [], origin, all);
            && r.Ok?
            && Get(r.value, key) == if key in config then Some(config[key])
                                    else if key in u.files[at.file] || inner == name then Get(u.files[at.file], key)
                                    else Get(u.files[below.file], key)
  {
    OneNameResolves(u, mergeable, config, origin, all, name, at, []);
    assert [] + [name] == [name];
    var outer := u.files[at.file] - {"description"};
    assert Get(outer, "extends") == Get(u.files[at.file], "extends");
    if inner == name {
      Skipped(u, mergeable, outer, at.origin, all, inner, [name]);
      UpperLayerWins(mergeable, map[], Own(outer), key);
    } else {
      InnerPreset(u, mergeable, outer, at.origin, all, name, inner, below, key);
    }
    hide Resolve, ExtendsOf, NamesIn, AllNames;
    var preset := Resolve(u, mergeable, outer, [name], at.origin, all).value;
    Stacked(mergeable, preset, Own(config), key);
  }

  lemma InnerPreset(u: Universe, mergeable: set<string>, outer: Rule, origin: Origin, all: set<string>, name: string,
                    inner: string, below: Located, key: string)
    requires AllNames(u) <= all && NamesIn(outer) <= all && ExtendsOne(u, outer, origin, inner, below) && inner != name
    requires ExtendsOf(u.files[below.file]) in {Some([]), Some([name]), Some([inner])}
    requires key !in mergeable && key !in {"extends", "description"}
    ensures var r := Resolve(u, mergeable, outer, [name], origin, all);
            r.Ok? && Get(r.value, key) == if key in outer then Some(outer[key]) else Get(u.files[below.file], key)
  {
    var chain := [name] + [inner];
    var deeper := u.files[below.file] - {"description"};
    OneNameResolves(u, mergeable, outer, origin, all, inner, below, [name]);
    assert Get(deeper, "extends") == Get(u.files[below.file], "extends");
    BothSkipped(u, mergeable, deeper, below.origin, all, chain);
    hide Resolve, ExtendsOf, NamesIn, AllNames, MergeChild;
    Stacked(mergeable, MergeChild(mergeable, map[], Own(deeper)), Own(outer), key);
    UpperLayerWins(mergeable, map[], Own(deeper), key);
  }

  /** Settings that extend nothing, or one preset the chain already has. */
  lemma BothSkipped(u: Universe, mergeable: set<string>, config: Rule, origin: Origin, all: set<string>,
                    chain: seq<string>)
    requires AllNames(u) <= all && NamesIn(config) <= all && ExtendsOf(config).Some?
    requires var names := ExtendsOf(config).value; names == [] || (|names| == 1 && names[0] in chain)
    ensures Resolve(u, mergeable, config, chain, origin, all) == Ok(MergeChild(mergeable, map[], Own(config)))
  {
    var names := ExtendsOf(config).value;
    if names == [] {
      assert ResolveNames(u, mergeable, [], chain, origin, all) == Ok(map[]);
    } else {
      assert names == [names[0]];
      Skipped(u, mergeable, config, origin, all, names[0], chain);
    }
  }

  lemma Stacked(mergeable: set<string>, below: Rule, above: Rule, key: string)
    requires key !in mergeable
    ensures Get(MergeChild(mergeable, MergeChild(mergeable, map[], below), above), key)
            == if key in above then Some(above[key]) else Get(below, key)
  {
    UpperLayerWins(mergeable, map[], below, key);
    UpperLayerWins(mergeable, MergeChild(mergeable, map[], below), above, key);
  }

  lemma Skipped(u: Universe, mergeable: set<string>, config: Rule, origin: Origin, all: set<string>, name: string,
                chain: seq<string>)
    requires AllNames(u) <= all && NamesIn(config) <= all && ExtendsOf(config) == Some([name]) && name in chain
    ensures Resolve(u, mergeable, config, chain, origin, all) == Ok(MergeChild(mergeable, map[], Own(config)))
  {
    assert [name][..0] == [] && name in [name];
    assert ResolveNames(u, mergeable, [], chain, origin, all) == Ok(map[]);
    assert name in NamesIn(config);
  }

  /** "extends" may be one name as well as a list of one. */
  lemma OneNameIsAList(config: Rule, name: string)
    requires name != ""
    ensures ExtendsOf(config["extends" := Str(name)]) == Some([name])
    ensures ExtendsOf(config["extends" := List([Str(name)])]) == Some([name])
  {
    assert [Str(name)][1..] == [] && NamesOf([]) == Some([]);
    assert [name] + [] == [name] && NamesOf([Str(name)]) == Some([name]);
  }

  /** What the file extends reaches each of its rules: an option a rule leaves out is the preset's. */
  lemma FilePresetReachesRules(u: Universe, mergeable: set<string>, origin: Origin, name: string,
                               rules: seq<Option<Rule>>, out: seq<Rule>, at: Located, i: nat, key: string)
    requires var b := RuleObject([name], rules);
             EachResolves(u, mergeable, Some(origin), FileExtends(b), Objects(rules), out)
    requires u.locate(name, origin) == Some(at) && at.file in u.files && ExtendsOf(u.files[at.file]) == Some([])
    requires i < |Objects(rules)| && ExtendsOf(Objects(rules)[i]) == Some([])
    requires key !in mergeable && key !in {"extends", "description"}
    ensures Get(out[i], key) == if key in Objects(rules)[i] then Get(Objects(rules)[i], key)
                                else Get(u.files[at.file], key)
  {
    var rule, preset := Objects(rules)[i], u.files[at.file] - {"description"};
    assert [name] + [] == [name];
    assert RuleResult(u, mergeable, Some(origin), [name], rule) == Ok(out[i]);
    AskingExtends(u, rule, [name]);
    assert Get(preset, "extends") == Get(u.files[at.file], "extends");
    var asking, all := Asking(rule, [name]), Names(u, [name]);
    OneNameResolves(u, mergeable, asking, origin, all, name, at, []);
    assert [] + [name] == [name];
    BothSkipped(u, mergeable, preset, at.origin, all, [name]);
    Stacked(mergeable, MergeChild(mergeable, map[], Own(preset)), Own(asking), key);
    MergedGet(mergeable, map[], Own(preset), key);
  }

  /** An "extends" that is neither a name nor a list of names, nor blank, fails the settings that have it. */
  lemma WrongExtendsFails(u: Universe, mergeable: set<string>, config: Rule, chain: seq<string>, origin: Origin,
                          all: set<string>, i: nat)
    requires AllNames(u) <= all && NamesIn(config) <= all && "extends" in config && Truthy(config["extends"])
    requires match config["extends"]
             case Str(_) => false
             case List(items) => i < |items| && !items[i].Str?
             case _ => true
    ensures Resolve(u, mergeable, config, chain, origin, all) == Failed
  {
    if config["extends"].List? {
      NoNames(config["extends"].items, i);
    }
  }

  lemma {:induction false} NoNames(items: seq<Json>, i: nat)
    requires i < |items| && !items[i].Str?
    ensures NamesOf(items) == None
  {
    if i > 0 {
      NoNames(items[1..], i - 1);
    }
  }

  /**
   A rule stays as it is exactly when neither it nor the file extends anything, wherever it comes from; one that
   does is refused when it is not known where presets live.
   */
  lemma NothingExtended(u: Universe, mergeable: set<string>, top: seq<string>, rule: Rule)
    ensures RuleResult(u, mergeable, None, top, rule).Ok? <==> top == [] && ExtendsOf(rule) == Some([])
    ensures forall origin :: top == [] && ExtendsOf(rule) == Some([]) ==>
              RuleResult(u, mergeable, origin, top, rule) == Ok(rule)
  {
  }
}
