/** rule_layers.merge_child: one layer of settings laid over another. */
module Merging {
  import opened Options
  import opened Settings
  import opened PruneConfigs

  /** `list(dict.fromkeys(items))`: each item once, where it came first. */
  function Dedupe<T(==)>(items: seq<T>): seq<T> {
    if items == [] then []
    else
      var init, last := items[..|items| - 1], items[|items| - 1];
      if last in init then Dedupe(init) else Dedupe(init) + [last]
  }

  ghost predicate NoRepeats<T>(items: seq<T>) {
    forall i, j :: 0 <= i < j < |items| ==> items[i] != items[j]
  }

  predicate IsObj(v: Option<Json>) {
    v.Some? && v.value.Obj?
  }

  /** A value that Python's get gives as None. */
  predicate IsNone(v: Option<Json>) {
    v == None || v == Some(Null)
  }

  /** _prune_object. */
  function PruneObject(v: Json): map<string, Json> {
    if v.Obj? then v.fields else map["enabled" := Bool(Truthy(v))]
  }

  function ListAt(fields: map<string, Json>, key: string): Option<seq<Json>> {
    if key in fields && fields[key].List? then Some(fields[key].items) else None
  }

  /** Two objects merged field by field; of prune, the protection patterns of both are kept. */
  function MergeFields(key: string, p: map<string, Json>, c: map<string, Json>): map<string, Json> {
    var patterns, more := ListAt(p, "protection"), ListAt(c, "protection");
    if key == "prune" && patterns.Some? && more.Some? then
      (p + c)["protection" := List(Dedupe(patterns.value + more.value))]
    else p + c
  }

  /** What a mergeable key becomes. */
  function MergeValues(key: string, p: Option<Json>, c: Option<Json>): Option<Json> {
    if IsObj(p) && IsObj(c) then Some(Obj(MergeFields(key, p.value.fields, c.value.fields)))
    else if key == "prune" && IsObj(p) != IsObj(c) && !IsNone(p) && !IsNone(c) then
      Some(Obj(MergeFields(key, PruneObject(p.value), PruneObject(c.value))))
    else if c.Some? then c
    else p
  }

  function MergedAt(mergeable: set<string>, key: string, p: Option<Json>, c: Option<Json>): Option<Json> {
    if key in mergeable then MergeValues(key, p, c) else if c.Some? then c else p
  }

  function MergeChild(mergeable: set<string>, parent: Rule, child: Rule): Rule {
    map k | k in parent.Keys + child.Keys && MergedAt(mergeable, k, Get(parent, k), Get(child, k)).Some? ::
      MergedAt(mergeable, k, Get(parent, k), Get(child, k)).value
  }

  function KeysIn(keys: seq<string>): set<string> {
    set k | k in keys
  }

  /** merge_child as it runs: the child over the parent, then each mergeable key again. */
  method MergeLayers(mergeable: seq<string>, parent: Rule, child: Rule) returns (out: Rule)
    ensures out == MergeChild(KeysIn(mergeable), parent, child)
  {
    out := parent + child;
    assert out == MergeChild({}, parent, child);
    assert KeysIn(mergeable[..0]) == {};
    for i := 0 to |mergeable|
      invariant out == MergeChild(KeysIn(mergeable[..i]), parent, child)
    {
      var key := mergeable[i];
      var p, c := Get(parent, key), Get(child, key);
      hide MergeChild, MergeFields, MergeValues, KeysIn;
      OneMoreKeyIn(mergeable, i);
      MergedPair(KeysIn(mergeable[..i]), key, parent, child);
      if key == "prune" && IsObj(p) != IsObj(c) && !IsNone(p) && !IsNone(c) {
        p, c := Some(Obj(PruneObject(p.value))), Some(Obj(PruneObject(c.value)));
      }
      if IsObj(p) && IsObj(c) {
        out := out[key := Obj(MergeFields(key, p.value.fields, c.value.fields))];
      }
    }
    assert mergeable[..|mergeable|] == mergeable;
  }

  lemma OneMoreKeyIn(mergeable: seq<string>, i: nat)
    requires i < |mergeable|
    ensures KeysIn(mergeable[..i + 1]) == KeysIn(mergeable[..i]) + {mergeable[i]}
  {
    assert mergeable[..i + 1] == mergeable[..i] + [mergeable[i]];
  }

  /** A key that is not two objects, after a prune that is none was made one, stays as it was laid over. */
  lemma MergedPair(done: set<string>, key: string, parent: Rule, child: Rule)
    ensures var p, c := Get(parent, key), Get(child, key);
            var asObjects := key == "prune" && IsObj(p) != IsObj(c) && !IsNone(p) && !IsNone(c);
            MergeChild(done + {key}, parent, child) ==
            if asObjects then
              MergeChild(done, parent, child)[key := Obj(MergeFields(key, PruneObject(p.value), PruneObject(c.value)))]
            else if IsObj(p) && IsObj(c) then
              MergeChild(done, parent, child)[key := Obj(MergeFields(key, p.value.fields, c.value.fields))]
            else MergeChild(done, parent, child)
  {
    MergedKeyAtATime(done, key, parent, child);
    hide MergeFields;
    var p, c := Get(parent, key), Get(child, key);
    if !(IsObj(p) && IsObj(c)) && !(key == "prune" && IsObj(p) != IsObj(c) && !IsNone(p) && !IsNone(c)) {
      LaidOver(done, key, parent, child);
    }
  }

  lemma LaidOver(done: set<string>, key: string, parent: Rule, child: Rule)
    requires var p, c := Get(parent, key), Get(child, key);
             !(IsObj(p) && IsObj(c)) && !(key == "prune" && IsObj(p) != IsObj(c) && !IsNone(p) && !IsNone(c))
    ensures MergeChild(done + {key}, parent, child) == MergeChild(done, parent, child)
  {
    forall k ensures Get(MergeChild(done + {key}, parent, child), k) == Get(MergeChild(done, parent, child), k) {
      MergedGet(done + {key}, parent, child, k);
      MergedGet(done, parent, child, k);
    }
    SameRule(MergeChild(done + {key}, parent, child), MergeChild(done, parent, child));
  }

  lemma MergedKeyAtATime(done: set<string>, key: string, parent: Rule, child: Rule)
    ensures MergeChild(done + {key}, parent, child) ==
            match MergeValues(key, Get(parent, key), Get(child, key))
            case Some(v) => MergeChild(done, parent, child)[key := v]
            case None => MergeChild(done, parent, child)
  {
  }

  // -- Layers as a monoid -------------------------------------------------------

  lemma MergedGet(mergeable: set<string>, parent: Rule, child: Rule, key: string)
    ensures Get(MergeChild(mergeable, parent, child), key)
              == MergedAt(mergeable, key, Get(parent, key), Get(child, key))
  {
  }

  lemma SameRule(a: Rule, b: Rule)
    requires forall k :: Get(a, k) == Get(b, k)
    ensures a == b
  {
    forall k ensures k in a <==> k in b {
      assert Get(a, k) == Get(b, k);
    }
    forall k | k in a ensures a[k] == b[k] {
      assert Get(a, k) == Get(b, k);
    }
  }

  /** A prune setting is true, false or a block whose protection, when given, is a list. */
  predicate TypedPrune(v: Json) {
    v.Bool? || (v.Obj? && ("protection" in v.fields ==> v.fields["protection"].List?))
  }

  /** Settings of their declared types: the mergeable maps are maps, prune is a prune setting. */
  predicate TypedAt(key: string, v: Option<Json>) {
    v.Some? ==> if key == "prune" then TypedPrune(v.value) else v.value.Obj?
  }

  predicate Typed(mergeable: set<string>, rule: Rule) {
    forall k :: k in mergeable && k in rule ==> TypedAt(k, Some(rule[k]))
  }

  lemma {:induction false} DedupeMembers<T>(items: seq<T>)
    ensures forall x :: x in Dedupe(items) <==> x in items
  {
    if items != [] {
      DedupeMembers(items[..|items| - 1]);
      assert items == items[..|items| - 1] + [items[|items| - 1]];
    }
  }

  /** Of each repeated item the first stays, and the order is that of the items. */
  lemma {:induction false} FirstStays<T>(first: T, rest: seq<T>)
    ensures Dedupe([first] + rest) == [first] + Dedupe(Except(rest, first))
    decreases |rest|
  {
    if rest == [] {
      assert [first] + rest == [first] && [first][..0] == [];
      assert Dedupe<T>([]) == [];
    } else {
      var init, last := rest[..|rest| - 1], rest[|rest| - 1];
      assert ([first] + rest)[..|rest|] == [first] + init;
      FirstStays(first, init);
      ExceptMembers(init, first);
      if last != first {
        assert (Except(init, first) + [last])[..|Except(init, first)|] == Except(init, first);
      }
    }
  }

  function Except<T(==)>(items: seq<T>, x: T): seq<T> {
    if items == [] then []
    else
      var init, last := items[..|items| - 1], items[|items| - 1];
      if last == x then Except(init, x) else Except(init, x) + [last]
  }

  lemma {:induction false} ExceptMembers<T>(items: seq<T>, x: T)
    ensures forall y :: y in Except(items, x) <==> y in items && y != x
  {
    if items != [] {
      ExceptMembers(items[..|items| - 1], x);
      assert items == items[..|items| - 1] + [items[|items| - 1]];
    }
  }

  /** Removing repeats early changes nothing. */
  lemma {:induction false} DedupeLeft<T>(a: seq<T>, b: seq<T>)
    ensures Dedupe(Dedupe(a) + b) == Dedupe(a + b)
  {
    DedupeMembers(a);
    if b == [] {
      DedupeTwice(a);
      assert Dedupe(a) + b == Dedupe(a) && a + b == a;
    } else {
      var init, last := b[..|b| - 1], b[|b| - 1];
      DedupeLeft(a, init);
      assert (Dedupe(a) + b)[..|Dedupe(a) + b| - 1] == Dedupe(a) + init;
      assert (a + b)[..|a + b| - 1] == a + init;
    }
  }

  lemma {:induction false} DedupeTwice<T>(a: seq<T>)
    ensures Dedupe(Dedupe(a)) == Dedupe(a)
  {
    if a != [] {
      var init, last := a[..|a| - 1], a[|a| - 1];
      DedupeTwice(init);
      DedupeMembers(init);
      if last !in init {
        assert (Dedupe(init) + [last])[..|Dedupe(init)|] == Dedupe(init);
      }
    }
  }

  lemma DedupeOne<T>(items: seq<T>, last: T)
    ensures Dedupe(items + [last]) == if last in items then Dedupe(items) else Dedupe(items) + [last]
  {
    assert (items + [last])[..|items|] == items;
  }

  lemma DedupeRightOne<T>(a: seq<T>, init: seq<T>, last: T)
    requires Dedupe(a + Dedupe(init)) == Dedupe(a + init)
    ensures Dedupe(a + Dedupe(init + [last])) == Dedupe(a + (init + [last]))
  {
    hide Dedupe;
    DedupeOne(init, last);
    DedupeOne(a + init, last);
    assert a + (init + [last]) == (a + init) + [last];
    if last !in init {
      DedupeMembers(init);
      DedupeOne(a + Dedupe(init), last);
      assert a + (Dedupe(init) + [last]) == (a + Dedupe(init)) + [last];
    }
  }

  lemma {:induction false} DedupeRight<T>(a: seq<T>, b: seq<T>)
    ensures Dedupe(a + Dedupe(b)) == Dedupe(a + b)
  {
    if b != [] {
      var init, last := b[..|b| - 1], b[|b| - 1];
      DedupeRight(a, init);
      DedupeRightOne(a, init, last);
      assert b == init + [last];
    }
  }

  lemma DedupeAssociates<T>(a: seq<T>, b: seq<T>, c: seq<T>)
    ensures Dedupe(Dedupe(a + b) + c) == Dedupe(a + Dedupe(b + c))
  {
    hide Dedupe;
    DedupeLeft(a + b, c);
    DedupeRight(a, b + c);
    assert (a + b) + c == a + (b + c);
  }

  /** The fields of a prune block: protection lists when given. */
  predicate TypedFields(f: map<string, Json>) {
    "protection" in f ==> f["protection"].List?
  }

  lemma FieldsAssociate(key: string, a: map<string, Json>, b: map<string, Json>, c: map<string, Json>)
    requires key == "prune" ==> TypedFields(a) && TypedFields(b) && TypedFields(c)
    ensures MergeFields(key, MergeFields(key, a, b), c) == MergeFields(key, a, MergeFields(key, b, c))
  {
    if key == "prune" {
      PruneFieldsBreakExactly(a, b, c);
    }
  }

  lemma ValuesAssociate(key: string, a: Option<Json>, b: Option<Json>, c: Option<Json>)
    requires TypedAt(key, a) && TypedAt(key, b) && TypedAt(key, c)
    ensures MergeValues(key, MergeValues(key, a, b), c) == MergeValues(key, a, MergeValues(key, b, c))
  {
    if key == "prune" {
      PruneAssociativityBreaksExactly(a, b, c);
    } else {
      AssociativityBreaksExactly(key, a, b, c);
    }
    hide MergeValues;
  }

  lemma MergedStaysTyped(mergeable: set<string>, a: Rule, b: Rule)
    requires Typed(mergeable, a) && Typed(mergeable, b)
    ensures Typed(mergeable, MergeChild(mergeable, a, b))
  {
  }

  /** merge_child is associative on typed settings. */
  lemma MergeAssociates(mergeable: set<string>, a: Rule, b: Rule, c: Rule)
    requires Typed(mergeable, a) && Typed(mergeable, b) && Typed(mergeable, c)
    ensures MergeChild(mergeable, MergeChild(mergeable, a, b), c)
              == MergeChild(mergeable, a, MergeChild(mergeable, b, c))
  {
    var left := MergeChild(mergeable, MergeChild(mergeable, a, b), c);
    var right := MergeChild(mergeable, a, MergeChild(mergeable, b, c));
    forall k ensures Get(left, k) == Get(right, k) {
      MergedGet(mergeable, a, b, k);
      MergedGet(mergeable, MergeChild(mergeable, a, b), c, k);
      MergedGet(mergeable, b, c, k);
      MergedGet(mergeable, a, MergeChild(mergeable, b, c), k);
      if k in mergeable {
        ValuesAssociate(k, Get(a, k), Get(b, k), Get(c, k));
      }
    }
    SameRule(left, right);
  }

  /** An empty layer changes nothing, above or below. */
  lemma EmptyLayer(mergeable: set<string>, r: Rule)
    ensures MergeChild(mergeable, map[], r) == r && MergeChild(mergeable, r, map[]) == r
  {
    SameRule(MergeChild(mergeable, map[], r), r);
    SameRule(MergeChild(mergeable, r, map[]), r);
  }

  /**
   For a mergeable map other than prune, whatever the values: the order of merging matters exactly when a
   middle layer sets something that is not a map between two maps, and the upper map lacks a key of the lower.
   */
  lemma AssociativityBreaksExactly(key: string, a: Option<Json>, b: Option<Json>, c: Option<Json>)
    requires key != "prune"
    ensures MergeValues(key, MergeValues(key, a, b), c) != MergeValues(key, a, MergeValues(key, b, c)) <==>
            IsObj(a) && b.Some? && !b.value.Obj? && IsObj(c) && !(a.value.fields.Keys <= c.value.fields.Keys)
  {
    if IsObj(a) && IsObj(b) && IsObj(c) {
      FieldsAssociate(key, a.value.fields, b.value.fields, c.value.fields);
    }
    if IsObj(a) && IsObj(c) {
      var x, y := a.value.fields, c.value.fields;
      if x.Keys <= y.Keys {
        assert x + y == y;
      } else {
        var k :| k in x && k !in y;
        assert k in x + y;
      }
    }
  }

  /** Laying *c* over *p* gives more than c: a field of its own, or patterns. */
  predicate Adds(p: map<string, Json>, c: map<string, Json>) {
    !(p.Keys <= c.Keys) || AddsPatterns(p, c)
  }

  predicate AddsPatterns(p: map<string, Json>, c: map<string, Json>) {
    var patterns, more := ListAt(p, "protection"), ListAt(c, "protection");
    patterns.Some? && more.Some? && Dedupe(patterns.value + more.value) != more.value
  }

  lemma AddsExactly(p: map<string, Json>, c: map<string, Json>)
    ensures Adds(p, c) <==> MergeFields("prune", p, c) != c
  {
    hide Dedupe;
    var merged := MergeFields("prune", p, c);
    if p.Keys <= c.Keys {
      assert p + c == c;
      if ListAt(p, "protection").Some? && ListAt(c, "protection").Some? {
        assert merged == c["protection" := List(Dedupe(p["protection"].items + c["protection"].items))];
        assert merged["protection"] != c["protection"] ==> merged != c;
      }
    } else {
      var k :| k in p && k !in c;
      assert k in merged;
    }
  }

  /** What merging makes of the protection of two blocks. */
  function MergedProtection(p: Option<Json>, c: Option<Json>): Option<Json> {
    match (p, c)
    case (Some(List(patterns)), Some(List(more))) => Some(List(Dedupe(patterns + more)))
    case (_, Some(v)) => c
    case (_, None) => p
  }

  lemma FieldAt(p: map<string, Json>, c: map<string, Json>, key: string)
    ensures Get(MergeFields("prune", p, c), key) ==
            if key == "protection" then MergedProtection(Get(p, key), Get(c, key))
            else if key in c then Get(c, key) else Get(p, key)
  {
    hide Dedupe;
  }

  lemma ProtectionBreaksExactly(a: Option<Json>, b: Option<Json>, c: Option<Json>)
    ensures MergedProtection(MergedProtection(a, b), c) != MergedProtection(a, MergedProtection(b, c)) <==>
            a.Some? && a.value.List? && b.Some? && !b.value.List? && c.Some? && c.value.List?
            && Dedupe(a.value.items + c.value.items) != c.value.items
  {
    hide Dedupe;
    if a.Some? && a.value.List? && b.Some? && b.value.List? && c.Some? && c.value.List? {
      DedupeAssociates(a.value.items, b.value.items, c.value.items);
    }
  }

  /** A middle block whose protection is no list drops the patterns below it only when it is merged first. */
  lemma PruneFieldsBreakExactly(a: map<string, Json>, b: map<string, Json>, c: map<string, Json>)
    ensures MergeFields("prune", MergeFields("prune", a, b), c) != MergeFields("prune", a,
                                                                               MergeFields("prune", b, c)) <==>
            "protection" in b && !b["protection"].List? && AddsPatterns(a, c)
  {
    var ab, bc := MergeFields("prune", a, b), MergeFields("prune", b, c);
    var left, right := MergeFields("prune", ab, c), MergeFields("prune", a, bc);
    ProtectionBreaksExactly(Get(a, "protection"), Get(b, "protection"), Get(c, "protection"));
    forall key
      ensures Get(left, key) == if key == "protection"
                                then MergedProtection(MergedProtection(Get(a, key), Get(b, key)), Get(c, key))
                                else if key in c then Get(c, key) else if key in b then Get(b, key) else Get(a, key)
      ensures Get(right, key) == if key == "protection"
                                 then MergedProtection(Get(a, key), MergedProtection(Get(b, key), Get(c, key)))
                                 else if key in c then Get(c, key) else if key in b then Get(b, key) else Get(a, key)
    {
      FieldAt(a, b, key);
      FieldAt(ab, c, key);
      FieldAt(b, c, key);
      FieldAt(a, bc, key);
      hide MergeFields, MergedProtection, Dedupe;
    }
    hide MergeFields, MergedProtection, Dedupe;
    if Get(left, "protection") == Get(right, "protection") {
      SameRule(left, right);
    }
  }

  /** A null between two settings is forgotten when it is merged first. */
  lemma NullBreaksExactly(a: Option<Json>, c: Option<Json>)
    requires !IsNone(a) && !IsNone(c)
    ensures MergeValues("prune", MergeValues("prune", a, Some(Null)), c) != MergeValues("prune", a,
                                                                                        MergeValues("prune",
                                                                                            Some(Null), c)) <==>
            (IsObj(a) || IsObj(c)) && (!IsObj(c) || Adds(PruneObject(a.value), c.value.fields))
  {
    hide MergeFields, Adds;
    if IsObj(c) {
      AddsExactly(PruneObject(a.value), c.value.fields);
    }
  }

  lemma AnyNull(a: Option<Json>, b: Option<Json>, c: Option<Json>)
    requires IsNone(a) || b == None || IsNone(c)
    ensures MergeValues("prune", MergeValues("prune", a, b), c) == MergeValues("prune", a, MergeValues("prune", b, c))
  {
    hide MergeFields;
  }

  /**
   For prune, whatever the values: the order of merging matters exactly when a middle layer says null between
   two that do not, of which one is a block and the lower one adds to the upper, or is swallowed by it; or
   when a middle block's protection is no list and the lower block adds patterns to the upper.
   */
  lemma PruneAssociativityBreaksExactly(a: Option<Json>, b: Option<Json>, c: Option<Json>)
    ensures MergeValues("prune", MergeValues("prune", a, b), c) != MergeValues("prune", a,
                                                                               MergeValues("prune", b, c)) <==>
            || (b == Some(Null) && !IsNone(a) && !IsNone(c) && (IsObj(a) || IsObj(c))
                && (!IsObj(c) || Adds(PruneObject(a.value), c.value.fields)))
            || (IsObj(a) && IsObj(b) && IsObj(c) && "protection" in b.value.fields
                && !b.value.fields["protection"].List?
                && AddsPatterns(a.value.fields, c.value.fields))
  {
    if IsNone(a) || b == None || IsNone(c) {
      AnyNull(a, b, c);
    } else if b == Some(Null) {
      NullBreaksExactly(a, c);
    } else {
      PruneFieldsBreakExactly(PruneObject(a.value), PruneObject(b.value), PruneObject(c.value));
      AtomsGiveWay(a.value, b.value, c.value);
    }
  }

  /** A prune that is no block has no protection, and of two such the upper one stays. */
  lemma AtomsGiveWay(a: Json, b: Json, c: Json)
    ensures !b.Obj? ==> "protection" !in PruneObject(b)
    ensures !a.Obj? ==> !AddsPatterns(PruneObject(a), PruneObject(c))
    ensures !c.Obj? ==> !AddsPatterns(PruneObject(a), PruneObject(c))
    ensures !a.Obj? && !b.Obj? ==> MergeFields("prune", PruneObject(a), PruneObject(b)) == PruneObject(b)
    ensures !b.Obj? && !c.Obj? ==> MergeFields("prune", PruneObject(b), PruneObject(c)) == PruneObject(c)
  {
  }
}
