/** presets.Resolver: shared settings that settings name under "extends", merged beneath them. */
module Presets {
  import opened Options
  import opened Settings
  import opened Merging

  /** The Git server "local>" means, as its URL and token. */
  datatype Origin = Origin(baseUrl: string, token: Option<string>)

  /** A preset file: repository URL, ref and path. */
  datatype FileKey = FileKey(url: string, ref: string, path: string)

  datatype Located = Located(file: FileKey, origin: Origin)

  /**
   What resolving depends on: where a preset's name leads from an origin (None: no such name or platform)
   and the files that hold a JSON object. Reading a file gives the same settings every time.
   */
  datatype Universe = Universe(locate: (string, Origin) -> Option<Located>, files: map<FileKey, Rule>)

  /** `config.get("extends")` as a list of names; None when it is neither absent, a name nor a list of names. */
  function ExtendsOf(config: Rule): Option<seq<string>> {
    match Get(config, "extends")
    case None => Some([])
    case Some(v) =>
      if !Truthy(v) then Some([])
      else
        match v
        case Str(name) => Some([name])
        case List(items) => NamesOf(items)
        case _ => None
  }

  function NamesOf(items: seq<Json>): Option<seq<string>> {
    if items == [] then Some([])
    else if !items[0].Str? then None
    else
      match NamesOf(items[1..])
      case None => None
      case Some(rest) => Some([items[0].s] + rest)
  }

  function NamesIn(config: Rule): set<string> {
    match ExtendsOf(config)
    case None => {}
    case Some(names) => set n | n in names
  }

  /** Every name some preset file extends: finitely many. */
  function AllNames(u: Universe): set<string> {
    set f, n | f in u.files && n in NamesIn(u.files[f]) :: n
  }

  function Chained(chain: seq<string>): set<string> {
    set n | n in chain
  }

  /** A preset's settings without its description, and the origin of the names in it. */
  function Load(u: Universe, name: string, origin: Origin): Result<(Rule, Origin)> {
    match u.locate(name, origin)
    case None => Failed
    case Some(at) => if at.file in u.files then Ok((u.files[at.file] - {"description"}, at.origin)) else Failed
  }

  function Own(config: Rule): Rule {
    config - {"extends"}
  }

  lemma Shrinks(all: set<string>, chain: seq<string>, name: string)
    requires name in all && name !in chain
    ensures |all - Chained(chain + [name])| < |all - Chained(chain)|
  {
    assert (chain + [name])[|chain|] == name && name in chain + [name];
    assert forall n :: n in chain + [name] <==> n in chain || n == name;
    var rest := all - Chained(chain + [name]);
    assert name !in rest && all - Chained(chain) == rest + {name};
    assert |rest + {name}| == |rest| + 1;
  }

  lemma LoadedNames(u: Universe, name: string, origin: Origin)
    requires Load(u, name, origin).Ok?
    ensures NamesIn(Load(u, name, origin).value.0) <= AllNames(u)
  {
    var file := u.locate(name, origin).value.file;
    var data := u.files[file];
    assert ExtendsOf(data - {"description"}) == ExtendsOf(data) by {
      assert Get(data - {"description"}, "extends") == Get(data, "extends");
    }
    assert forall n :: n in NamesIn(data) ==> file in u.files && n in AllNames(u);
  }

  // -- resolve ------------------------------------------------------------------

  /** resolve: the presets merged left to right, then the settings beside "extends". *all* bounds the names met. */
  function Resolve(u: Universe, mergeable: set<string>, config: Rule, chain: seq<string>, origin: Origin,
                   all: set<string>):
    Result<Rule>
    requires AllNames(u) <= all && NamesIn(config) <= all
    decreases |all - Chained(chain)|, 1, 0
  {
    match ExtendsOf(config)
    case None => Failed
    case Some(names) =>
      match ResolveNames(u, mergeable, names, chain, origin, all)
      case Failed => Failed
      case Ok(merged) => Ok(MergeChild(mergeable, merged, Own(config)))
  }

  /** The presets of *names* merged left to right; one already in the chain is skipped. */
  function ResolveNames(u: Universe, mergeable: set<string>, names: seq<string>, chain: seq<string>, origin: Origin,
                        all: set<string>): Result<Rule>
    requires AllNames(u) <= all && forall n :: n in names ==> n in all
    decreases |all - Chained(chain)|, 0, |names|
  {
    if names == [] then Ok(map[])
    else
      var init, name := names[..|names| - 1], names[|names| - 1];
      match ResolveNames(u, mergeable, init, chain, origin, all)
      case Failed => Failed
      case Ok(merged) =>
        if name in chain then Ok(merged)
        else
          match Load(u, name, origin)
          case Failed => Failed
          case Ok(loaded) =>
            LoadedNames(u, name, origin);
            Shrinks(all, chain, name);
            match Resolve(u, mergeable, loaded.0, chain + [name], loaded.1, all)
            case Failed => Failed
            case Ok(preset) => Ok(MergeChild(mergeable, merged, preset))
  }

  // -- The resolver with its cache ----------------------------------------------

  class Resolver {
    const u: Universe
    const mergeable: set<string>
    /** Files read so far, without their descriptions. */
    var cache: map<FileKey, Rule>
    /** Every read, in order. */
    var fetched: seq<FileKey>

    ghost predicate Valid()
      reads this
    {
      && (forall f :: f in cache ==> f in u.files && cache[f] == u.files[f] - {"description"})
      && (forall f :: f in fetched <==> f in cache)
      && (forall i, j :: 0 <= i < j < |fetched| ==> fetched[i] != fetched[j])
    }

    constructor (u: Universe, mergeable: set<string>)
      ensures Valid() && this.u == u && this.mergeable == mergeable && fetched == []
    {
      this.u, this.mergeable, this.cache, this.fetched := u, mergeable, map[], [];
    }

    /** _load: a file is read once, however often presets name it. */
    method LoadCached(name: string, origin: Origin) returns (r: Result<(Rule, Origin)>)
      requires Valid()
      modifies this
      ensures Valid() && old(fetched) <= fetched
      ensures r == Load(u, name, origin)
    {
      var at := u.locate(name, origin);
      if at == None {
        return Failed;
      }
      var file := at.value.file;
      if file !in cache {
        if file !in u.files {
          return Failed;
        }
        fetched := fetched + [file];
        cache := cache[file := u.files[file] - {"description"}];
      }
      r := Ok((cache[file], at.value.origin));
    }

    /** resolve as it runs. */
    method ResolveConfig(config: Rule, chain: seq<string>, origin: Origin, ghost all: set<string>)
      returns (r: Result<Rule>)
      requires Valid() && AllNames(u) <= all && NamesIn(config) <= all
      modifies this
      ensures Valid() && old(fetched) <= fetched
      ensures r == Resolve(u, mergeable, config, chain, origin, all)
      decreases |all - Chained(chain)|
    {
      var extends' := ExtendsOf(config);
      if extends' == None {
        return Failed;
      }
      var names := extends'.value;
      var merged: Rule := map[];
      hide MergeChild, ExtendsOf, AllNames, Own, Chained, Load;
      for i := 0 to |names|
        invariant Valid() && old(fetched) <= fetched
        invariant ResolveNames(u, mergeable, names[..i], chain, origin, all) == Ok(merged)
      {
        var name := names[i];
        assert names[..i + 1][..i] == names[..i];
        if name in chain {
          continue;
        }
        var loaded := LoadCached(name, origin);
        if loaded.Failed? {
          FailureStays(u, mergeable, names, i + 1, chain, origin, all);
          return Failed;
        }
        LoadedNames(u, name, origin);
        Shrinks(all, chain, name);
        var preset := ResolveConfig(loaded.value.0, chain + [name], loaded.value.1, all);
        if preset.Failed? {
          FailureStays(u, mergeable, names, i + 1, chain, origin, all);
          return Failed;
        }
        merged := MergeChild(mergeable, merged, preset.value);
      }
      assert names[..|names|] == names;
      r := Ok(MergeChild(mergeable, merged, Own(config)));
    }
  }

  lemma {:induction false} FailureStays(u: Universe, mergeable: set<string>, names: seq<string>, i: nat,
                                        chain: seq<string>, origin: Origin, all: set<string>)
    requires AllNames(u) <= all && (forall n :: n in names ==> n in all) && i <= |names|
    requires ResolveNames(u, mergeable, names[..i], chain, origin, all) == Failed
    ensures ResolveNames(u, mergeable, names, chain, origin, all) == Failed
    decreases |names| - i
  {
    if i < |names| {
      assert names[..i + 1][..i] == names[..i];
      FailureStays(u, mergeable, names, i + 1, chain, origin, all);
    } else {
      assert names[..i] == names;
    }
  }

  // -- What resolving amounts to ------------------------------------------------

  /** The bodies met, each preset's after those of the presets it extends, the settings' own last. */
  function Bodies(u: Universe, config: Rule, chain: seq<string>, origin: Origin, all: set<string>): Result<seq<Rule>>
    requires AllNames(u) <= all && NamesIn(config) <= all
    decreases |all - Chained(chain)|, 1, 0
  {
    match ExtendsOf(config)
    case None => Failed
    case Some(names) =>
      match NameBodies(u, names, chain, origin, all)
      case Failed => Failed
      case Ok(bodies) => Ok(bodies + [Own(config)])
  }

  function NameBodies(u: Universe, names: seq<string>, chain: seq<string>, origin: Origin, all: set<string>):
    Result<seq<Rule>>
    requires AllNames(u) <= all && forall n :: n in names ==> n in all
    decreases |all - Chained(chain)|, 0, |names|
  {
    if names == [] then Ok([])
    else
      var init, name := names[..|names| - 1], names[|names| - 1];
      match NameBodies(u, init, chain, origin, all)
      case Failed => Failed
      case Ok(before) =>
        if name in chain then Ok(before)
        else
          match Load(u, name, origin)
          case Failed => Failed
          case Ok(loaded) =>
            LoadedNames(u, name, origin);
            Shrinks(all, chain, name);
            match Bodies(u, loaded.0, chain + [name], loaded.1, all)
            case Failed => Failed
            case Ok(more) => Ok(before + more)
  }

  /** Layers merged one after another, from nothing. */
  function Fold(mergeable: set<string>, layers: seq<Rule>): Rule {
    if layers == [] then map[]
    else MergeChild(mergeable, Fold(mergeable, layers[..|layers| - 1]), layers[|layers| - 1])
  }

  ghost predicate AllTyped(mergeable: set<string>, layers: seq<Rule>) {
    forall i :: 0 <= i < |layers| ==> Typed(mergeable, layers[i])
  }

  lemma {:induction false} FoldTyped(mergeable: set<string>, layers: seq<Rule>)
    requires AllTyped(mergeable, layers)
    ensures Typed(mergeable, Fold(mergeable, layers))
  {
    if layers != [] {
      FoldTyped(mergeable, layers[..|layers| - 1]);
      MergedStaysTyped(mergeable, Fold(mergeable, layers[..|layers| - 1]), layers[|layers| - 1]);
    }
  }

  lemma {:induction false} FoldConcat(mergeable: set<string>, a: seq<Rule>, b: seq<Rule>)
    requires AllTyped(mergeable, a) && AllTyped(mergeable, b)
    ensures Fold(mergeable, a + b) == MergeChild(mergeable, Fold(mergeable, a), Fold(mergeable, b))
    decreases |b|
  {
    if b == [] {
      assert a + b == a;
      EmptyLayer(mergeable, Fold(mergeable, a));
    } else {
      var init, last := b[..|b| - 1], b[|b| - 1];
      assert (a + b)[..|a + b| - 1] == a + init;
      FoldConcat(mergeable, a, init);
      FoldTyped(mergeable, a);
      FoldTyped(mergeable, init);
      MergeAssociates(mergeable, Fold(mergeable, a), Fold(mergeable, init), last);
    }
  }

  ghost predicate TypedUniverse(u: Universe, mergeable: set<string>) {
    forall f :: f in u.files ==> Typed(mergeable, u.files[f])
  }

  lemma WithoutStaysTyped(mergeable: set<string>, r: Rule, keys: set<string>)
    requires Typed(mergeable, r)
    ensures Typed(mergeable, r - keys)
  {
  }

  lemma {:induction false} BodiesAreTyped(u: Universe, mergeable: set<string>, config: Rule, chain: seq<string>,
                                          origin: Origin, all: set<string>)
    requires AllNames(u) <= all && NamesIn(config) <= all
    requires TypedUniverse(u, mergeable) && Typed(mergeable, config)
    requires Bodies(u, config, chain, origin, all).Ok?
    ensures AllTyped(mergeable, Bodies(u, config, chain, origin, all).value)
    decreases |all - Chained(chain)|, 1, 0
  {
    NameBodiesAreTyped(u, mergeable, ExtendsOf(config).value, chain, origin, all);
    WithoutStaysTyped(mergeable, config, {"extends"});
  }

  lemma {:induction false} NameBodiesAreTyped(u: Universe, mergeable: set<string>, names: seq<string>,
                                              chain: seq<string>, origin: Origin, all: set<string>)
    requires AllNames(u) <= all && forall n :: n in names ==> n in all
    requires TypedUniverse(u, mergeable) && NameBodies(u, names, chain, origin, all).Ok?
    ensures AllTyped(mergeable, NameBodies(u, names, chain, origin, all).value)
    decreases |all - Chained(chain)|, 0, |names|
  {
    if names != [] {
      var init, name := names[..|names| - 1], names[|names| - 1];
      NameBodiesAreTyped(u, mergeable, init, chain, origin, all);
      if name !in chain {
        var loaded := Load(u, name, origin).value;
        LoadedNames(u, name, origin);
        Shrinks(all, chain, name);
        WithoutStaysTyped(mergeable, u.files[u.locate(name, origin).value.file], {"description"});
        BodiesAreTyped(u, mergeable, loaded.0, chain + [name], loaded.1, all);
      }
    }
  }

  /**
   Resolving is one left-to-right merge of all bodies in post-order; it fails exactly when some name
   cannot be loaded. It ends for every finite universe, cyclic or not.
   */
  lemma {:induction false} ResolveIsFold(u: Universe, mergeable: set<string>, config: Rule, chain: seq<string>,
                                         origin: Origin, all: set<string>)
    requires AllNames(u) <= all && NamesIn(config) <= all
    requires TypedUniverse(u, mergeable) && Typed(mergeable, config)
    ensures Resolve(u, mergeable, config, chain, origin, all) ==
            match Bodies(u, config, chain, origin, all)
            case Failed => Failed
            case Ok(bodies) => Ok(Fold(mergeable, bodies))
    decreases |all - Chained(chain)|, 1, 0
  {
    if ExtendsOf(config).Some? {
      var names := ExtendsOf(config).value;
      ResolveNamesIsFold(u, mergeable, names, chain, origin, all);
      if NameBodies(u, names, chain, origin, all).Ok? {
        var bodies := NameBodies(u, names, chain, origin, all).value;
        assert (bodies + [Own(config)])[..|bodies|] == bodies;
      }
    }
  }

  lemma {:induction false} ResolveNamesIsFold(u: Universe, mergeable: set<string>, names: seq<string>,
                                              chain: seq<string>, origin: Origin, all: set<string>)
    requires AllNames(u) <= all && forall n :: n in names ==> n in all
    requires TypedUniverse(u, mergeable)
    ensures ResolveNames(u, mergeable, names, chain, origin, all) ==
            match NameBodies(u, names, chain, origin, all)
            case Failed => Failed
            case Ok(bodies) => Ok(Fold(mergeable, bodies))
    decreases |all - Chained(chain)|, 0, |names|
  {
    if names != [] {
      var init, name := names[..|names| - 1], names[|names| - 1];
      ResolveNamesIsFold(u, mergeable, init, chain, origin, all);
      if NameBodies(u, init, chain, origin, all).Ok? && name !in chain && Load(u, name, origin).Ok? {
        var loaded := Load(u, name, origin).value;
        LoadedNames(u, name, origin);
        Shrinks(all, chain, name);
        WithoutStaysTyped(mergeable, u.files[u.locate(name, origin).value.file], {"description"});
        ResolveIsFold(u, mergeable, loaded.0, chain + [name], loaded.1, all);
        if Bodies(u, loaded.0, chain + [name], loaded.1, all).Ok? {
          NameBodiesAreTyped(u, mergeable, init, chain, origin, all);
          BodiesAreTyped(u, mergeable, loaded.0, chain + [name], loaded.1, all);
          FoldConcat(mergeable, NameBodies(u, init, chain, origin, all).value,
                     Bodies(u, loaded.0, chain + [name], loaded.1, all).value);
        }
      }
    }
  }

  /** Resolved settings extend nothing. */
  lemma {:induction false} ResolvedHasNoExtends(u: Universe, mergeable: set<string>, config: Rule, chain: seq<string>,
                                                origin: Origin, all: set<string>)
    requires AllNames(u) <= all && NamesIn(config) <= all
    requires Resolve(u, mergeable, config, chain, origin, all).Ok?
    ensures "extends" !in Resolve(u, mergeable, config, chain, origin, all).value
    decreases |all - Chained(chain)|, 1, 0
  {
    NamesHaveNoExtends(u, mergeable, ExtendsOf(config).value, chain, origin, all);
  }

  lemma {:induction false} NamesHaveNoExtends(u: Universe, mergeable: set<string>, names: seq<string>,
                                              chain: seq<string>, origin: Origin, all: set<string>)
    requires AllNames(u) <= all && (forall n :: n in names ==> n in all)
    requires ResolveNames(u, mergeable, names, chain, origin, all).Ok?
    ensures "extends" !in ResolveNames(u, mergeable, names, chain, origin, all).value
    decreases |all - Chained(chain)|, 0, |names|
  {
    if names != [] {
      var init, name := names[..|names| - 1], names[|names| - 1];
      NamesHaveNoExtends(u, mergeable, init, chain, origin, all);
      if name !in chain {
        var loaded := Load(u, name, origin).value;
        LoadedNames(u, name, origin);
        Shrinks(all, chain, name);
        ResolvedHasNoExtends(u, mergeable, loaded.0, chain + [name], loaded.1, all);
      }
    }
  }
}
