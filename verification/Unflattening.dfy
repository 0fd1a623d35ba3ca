/** transformer.unflatten: nesting flat keys by their dots, and the round trips with flattening. */
module Unflattening {
  import opened Options
  import opened Paths
  import opened Trees
  import opened Flattening
  import opened TreeEdits

  // -- The insertion loop -------------------------------------------------------

  /**
   One key's walk: `node = node.setdefault(part, {})` along the path, then the value. None where the
   walk would have to go on inside a value.
   */
  function SetAlong(t: Tree, p: Path, value: string): Option<Tree>
    requires t.Dict? && p != []
    decreases |p|
  {
    if |p| == 1 then Some(PutField(t, p[0], Leaf(TextValue(value))))
    else
      var child := if p[0] in t.fields then t.fields[p[0]] else EMPTY;
      if !child.Dict? then None
      else
        match SetAlong(child, p[1..], value)
        case None => None
        case Some(c) => Some(PutField(t, p[0], c))
  }

  lemma {:induction false} SetAlongIsPut(t: Tree, p: Path, value: string)
    requires t.Dict? && Plain(t) && p != []
    requires forall q :: q < p ==> LeafAt(t, q) == None
    ensures SetAlong(t, p, value) == Some(Put(t, p, TextValue(value)))
    decreases |p|
  {
    if |p| > 1 {
      if p[0] in t.fields {
        var child := t.fields[p[0]];
        assert child.Dict? by {
          assert p[..1] < p && p[..1][1..] == [];
          assert LeafAt(t, p[..1]) == LeafAt(child, []);
        }
        forall q | q < p[1..] ensures LeafAt(child, q) == None {
          assert ([p[0]] + q)[1..] == q;
          assert [p[0]] + q < p;
          assert LeafAt(t, [p[0]] + q) == LeafAt(child, q);
        }
        SetAlongIsPut(child, p[1..], value);
      } else {
        assert forall q :: q != [] ==> At(EMPTY, q) == None;
        SetAlongIsPut(EMPTY, p[1..], value);
      }
    }
  }

  /** The keys nested one after another. */
  function Nested(keys: seq<string>, flat: map<string, string>): Tree
    requires forall k :: k in keys ==> k in flat
    ensures Nested(keys, flat).Dict?
  {
    if keys == [] then EMPTY
    else
      var last := keys[|keys| - 1];
      Put(Nested(keys[..|keys| - 1], flat), Split(last), TextValue(flat[last]))
  }

  /** No object inside the tree is empty. */
  ghost predicate NoEmptyInside(t: Tree) {
    t.Dict? ==> forall k :: k in t.fields ==>
        t.fields[k] != EMPTY && NoEmptyInside(t.fields[k]) && (t.fields[k].Dict? ==> t.fields[k].fields != map[])
  }

  lemma {:induction false} PutKeepsNonEmpty(t: Tree, p: Path, value: Scalar)
    requires t.Dict? && p != [] && NoEmptyInside(t)
    ensures NoEmptyInside(Put(t, p, value)) && Put(t, p, value).fields != map[]
    decreases |p|
  {
    if |p| > 1 {
      PutKeepsNonEmpty(Section(t, p[0]), p[1..], value);
    }
    assert p[0] in Put(t, p, value).fields;
  }

  /** What nesting the keys puts at a path. */
  ghost function Wanted(keys: seq<string>, flat: map<string, string>, p: Path): Option<Scalar>
    requires forall k :: k in keys ==> k in flat
  {
    if DotFreePath(p) && Join(p) in keys then Some(TextValue(flat[Join(p)])) else None
  }

  lemma NoKeyOnTheWay(keys: set<string>, key: string, p: Path)
    requires PrefixFree(keys) && key in keys && DotFreePath(p) && Comparable(Split(key), p) && p != Split(key)
    ensures Join(p) !in keys
  {
    SplitJoin(p);
  }

  lemma {:induction false} NestedLeaves(keys: seq<string>, flat: map<string, string>)
    requires (forall k :: k in keys ==> k in flat) && PrefixFree(set k | k in keys)
    ensures Plain(Nested(keys, flat)) && NoEmptyInside(Nested(keys, flat))
    ensures forall p :: LeafAt(Nested(keys, flat), p) == Wanted(keys, flat, p)
  {
    if keys == [] {
      assert forall p :: p != [] ==> At(EMPTY, p) == None;
    } else {
      var init, last := keys[..|keys| - 1], keys[|keys| - 1];
      assert keys == init + [last];
      var before := Nested(init, flat);
      NestedLeaves(init, flat);
      PutPlain(before, Split(last), TextValue(flat[last]));
      PutKeepsNonEmpty(before, Split(last), TextValue(flat[last]));
      assert Nested(keys, flat) == Put(before, Split(last), TextValue(flat[last]));
      hide Nested, Wanted, Plain, NoEmptyInside, PrefixFree, Put, LeafAt, Split, Comparable;
      forall p ensures LeafAt(Nested(keys, flat), p) == Wanted(keys, flat, p) {
        LeafAfterPut(before, Split(last), TextValue(flat[last]), p);
        WantedNext(keys, flat, p);
      }
    }
  }

  lemma WantedNext(keys: seq<string>, flat: map<string, string>, p: Path)
    requires keys != [] && (forall k :: k in keys ==> k in flat) && PrefixFree(set k | k in keys)
    ensures var last := keys[|keys| - 1];
            Wanted(keys, flat, p) ==
            if p == Split(last) then Some(TextValue(flat[last]))
            else if Comparable(Split(last), p) then None
            else Wanted(keys[..|keys| - 1], flat, p)
  {
    var init, last := keys[..|keys| - 1], keys[|keys| - 1];
    assert keys == init + [last];
    JoinSplit(last);
    if DotFreePath(p) {
      SplitJoin(p);
      if Comparable(Split(last), p) && p != Split(last) {
        NoKeyOnTheWay((set k | k in keys), last, p);
      }
    }
  }

  /** A nonempty object without empty ones inside has a leaf. */
  lemma {:induction false} LeafBelow(t: Tree) returns (p: Path)
    requires Plain(t) && NoEmptyInside(t) && t.Dict? && t.fields != map[]
    ensures p != [] && LeafAt(t, p).Some?
    decreases t
  {
    var k :| k in t.fields;
    if t.fields[k].Leaf? {
      p := [k];
      assert At(t.fields[k], p[1..]) == Some(t.fields[k]);
    } else {
      var rest := LeafBelow(t.fields[k]);
      p := [k] + rest;
      assert p[1..] == rest;
    }
  }

  lemma {:induction false} LeafBelowAt(t: Tree, p: Path) returns (q: Path)
    requires Plain(t) && NoEmptyInside(t) && p != [] && At(t, p).Some?
    ensures p <= q && LeafAt(t, q).Some?
    decreases |p|
  {
    var child := t.fields[p[0]];
    if |p| > 1 {
      var rest := LeafBelowAt(child, p[1..]);
      q := [p[0]] + rest;
      assert q[1..] == rest && p == [p[0]] + p[1..];
    } else if child.Leaf? {
      q := p;
    } else {
      var rest := LeafBelow(child);
      q := [p[0]] + rest;
      assert q[1..] == rest && p == [p[0]];
    }
  }

  /** The keys that are the parent of some key. */
  function Parents(keys: set<string>): set<string> {
    set k, i | k in keys && 0 < i < |Split(k)| :: Join(Split(k)[..i])
  }

  lemma ClashesExactly(keys: set<string>)
    ensures Parents(keys) * keys == {} <==> PrefixFree(keys)
  {
    if !PrefixFree(keys) {
      var a, b :| a in keys && b in keys && ProperPrefix(Split(a), Split(b));
      JoinSplit(a);
      assert Split(b)[..|Split(a)|] == Split(a);
      assert a in Parents(keys) * keys;
    } else if Parents(keys) * keys != {} {
      var a :| a in Parents(keys) * keys;
      var b, i :| b in keys && 0 < i < |Split(b)| && a == Join(Split(b)[..i]);
      SplitJoin(Split(b)[..i]);
    }
  }

  /**
   unflatten. It fails exactly when some key is the parent of another; otherwise each key's walk finds
   only objects on its way and nothing where its value goes.
   */
  method Unflatten(keys: seq<string>, flat: map<string, string>) returns (r: Result<Tree>)
    requires Distinct(keys) && (set k | k in keys) == flat.Keys
    ensures r.Ok? <==> PrefixFree(flat.Keys)
    ensures r.Ok? ==> r.value == Nested(keys, flat)
  {
    ClashesExactly(flat.Keys);
    if Parents(flat.Keys) * flat.Keys != {} {
      return Failed;
    }
    var result := EMPTY;
    for i := 0 to |keys|
      invariant result == Nested(keys[..i], flat)
    {
      var path := Split(keys[i]);
      WayIsFree(keys, flat, i);
      var next := SetAlong(result, path, flat[keys[i]]);
      assert At(result, path) == None && next.Some?;
      assert keys[..i + 1][..i] == keys[..i];
      result := next.value;
    }
    assert keys[..|keys|] == keys;
    r := Ok(result);
  }

  lemma WayIsFree(keys: seq<string>, flat: map<string, string>, i: nat)
    requires Distinct(keys) && (set k | k in keys) == flat.Keys && PrefixFree(flat.Keys) && i < |keys|
    requires forall k :: k in keys ==> k in flat
    ensures var t, p := Nested(keys[..i], flat), Split(keys[i]);
            At(t, p) == None && SetAlong(t, p, flat[keys[i]]) == Some(Put(t, p, TextValue(flat[keys[i]])))
  {
    var t, p := Nested(keys[..i], flat), Split(keys[i]);
    NestedLeaves(keys[..i], flat);
    JoinSplit(keys[i]);
    forall q | LeafAt(t, q).Some? ensures !(q <= p) && !(p <= q) {
      SplitJoin(q);
      assert Join(q) in flat.Keys;
      assert q != p;
    }
    SetAlongIsPut(t, p, flat[keys[i]]);
    if At(t, p).Some? {
      var q := LeafBelowAt(t, p);
    }
  }

  // -- flatten(unflatten(m)) ----------------------------------------------------

  lemma DotFreeIsGood(s: string)
    requires DotFree(s)
    ensures GoodKey(s)
  {
    if s != "" {
      assert s[0] in s;
    }
  }

  lemma {:induction false} FlattenedKeysAreGood(prefix: string, p: Path)
    requires GoodKey(prefix) && forall i :: 0 <= i < |p| ==> DotFree(p[i])
    ensures GoodKey(KeyOf(prefix, p))
    decreases |p|
  {
    if p != [] {
      assert GoodKey(Step(prefix, p[0])) by {
        if prefix == "" {
          DotFreeIsGood(p[0]);
        } else {
          assert Step(prefix, p[0])[0] == prefix[0];
        }
      }
      FlattenedKeysAreGood(Step(prefix, p[0]), p[1..]);
    }
  }

  /** Flat keys that can be nested come back from flattening exactly when none of them starts with a dot. */
  lemma FlattenOfUnflatten(keys: seq<string>, flat: map<string, string>)
    requires (set k | k in keys) == flat.Keys && PrefixFree(flat.Keys)
    requires forall k :: k in keys ==> k in flat
    ensures Flatten(Nested(keys, flat)) == flat <==> forall k :: k in flat ==> GoodKey(k)
  {
    var t := Nested(keys, flat);
    NestedLeaves(keys, flat);
    if forall k :: k in flat ==> GoodKey(k) {
      forall p | LeafAt(t, p).Some? ensures GoodPath(p) {
        SplitJoin(p);
        GoodKeyGoodPath(Join(p));
      }
      forall key ensures Get(flat, key) == TextAt(t, Split(key)) {
        JoinSplit(key);
      }
      FlattenIs(t, flat);
    } else {
      var k :| k in flat && !GoodKey(k);
      if k in Flatten(t) {
        FirstWinsAt(Leaves(t, ""), k);
        var i :| 0 <= i < |Leaves(t, "")| && Leaves(t, "")[i].key == k;
        var p := ListedIsLeaf(t, "", Leaves(t, "")[i]);
        LeafPathDotFree(t, p);
        FlattenedKeysAreGood("", p);
      }
    }
  }

  // -- unflatten(flatten(t)) ----------------------------------------------------

  /** The same data: equal but for the order of keys, as Python compares dicts. */
  ghost predicate SameData(a: Tree, b: Tree) {
    match a
    case Leaf(_) => a == b
    case List(_) => a == b
    case Dict(_, fields) => b.Dict? && fields.Keys == b.fields.Keys && forall k :: k in fields ==>
        SameData(fields[k], b.fields[k])
  }

  ghost predicate StringLeaves(t: Tree) {
    forall p :: LeafAt(t, p).Some? ==> LeafAt(t, p).value.TextValue?
  }

  lemma LeafUnder(t: Tree, k: string, p: Path)
    requires t.Dict? && k in t.fields
    ensures LeafAt(t, [k] + p) == LeafAt(t.fields[k], p)
  {
    assert ([k] + p)[1..] == p;
  }

  lemma {:induction false} SameByLeaves(a: Tree, b: Tree)
    requires Plain(a) && Plain(b) && NoEmptyInside(a) && NoEmptyInside(b) && a.Dict? && b.Dict?
    requires forall p :: LeafAt(a, p) == LeafAt(b, p)
    ensures SameData(a, b)
    decreases a
  {
    forall k ensures k in a.fields <==> k in b.fields {
      FieldByLeaves(a, b, k);
      FieldByLeaves(b, a, k);
    }
    forall k | k in a.fields ensures SameData(a.fields[k], b.fields[k]) {
      var x, y := a.fields[k], b.fields[k];
      forall p ensures LeafAt(x, p) == LeafAt(y, p) {
        LeafUnder(a, k, p);
        LeafUnder(b, k, p);
      }
      assert LeafAt(x, []) == LeafAt(y, []);
      if x.Dict? {
        SameByLeaves(x, y);
      }
    }
  }

  lemma FieldByLeaves(a: Tree, b: Tree, k: string)
    requires Plain(a) && NoEmptyInside(a) && a.Dict? && b.Dict?
    requires forall p :: LeafAt(a, p) == LeafAt(b, p)
    ensures k in a.fields ==> k in b.fields
  {
    if k in a.fields {
      var q := LeafBelowAt(a, [k]);
      assert q[0] == k && LeafAt(b, q).Some?;
    }
  }

  /** A tree of objects with string leaves, none of them empty inside, comes back from its flat form. */
  lemma UnflattenOfFlatten(t: Tree, keys: seq<string>)
    requires Plain(t) && t.Dict? && GoodLeaves(t) && NoEmptyInside(t) && StringLeaves(t)
    requires Distinct(keys) && (set k | k in keys) == Flatten(t).Keys
    ensures PrefixFree(Flatten(t).Keys)
    ensures (forall k :: k in keys ==> k in Flatten(t)) && SameData(Nested(keys, Flatten(t)), t)
  {
    FlattenIsPrefixFree(t);
    var flat := Flatten(t);
    assert forall k :: k in keys ==> k in (set j | j in keys);
    var u := Nested(keys, flat);
    NestedLeaves(keys, flat);
    forall p ensures LeafAt(u, p) == LeafAt(t, p) {
      if DotFreePath(p) {
        FlattenAt(t, Join(p));
        SplitJoin(p);
        assert Join(p) in keys <==> Join(p) in flat;
      } else if LeafAt(t, p).Some? {
        LeafPathDotFree(t, p);
      }
    }
    SameByLeaves(u, t);
  }
}
