/** Object trees by the paths of their leaves: setting and removing a leaf, and what flattening makes of them. */
module TreeEdits {
  import opened Options
  import opened Paths
  import opened Trees
  import opened Flattening

  /** A tree of objects only, each listing its keys once, with no dot in any key. */
  ghost predicate Plain(t: Tree) {
    match t
    case Leaf(_) => true
    case List(_) => false
    case Dict(keys, fields) =>
      && (forall k :: k in keys <==> k in fields)
      && Distinct(keys)
      && (forall k :: k in fields ==> DotFree(k) && Plain(fields[k]))
  }

  /** Every leaf stands where its flattened key leads back to it: no section is named "". */
  ghost predicate GoodLeaves(t: Tree) {
    forall p :: LeafAt(t, p).Some? ==> GoodPath(p)
  }

  // -- Flattening by paths ------------------------------------------------------

  /** The key a leaf at path *p* below *prefix* gets. */
  function KeyOf(prefix: string, p: Path): string
    decreases |p|
  {
    if p == [] then prefix else KeyOf(Step(prefix, p[0]), p[1..])
  }

  lemma {:induction false} KeyOfBelow(prefix: string, p: Path)
    requires prefix != "" && p != []
    ensures KeyOf(prefix, p) == prefix + "." + Join(p)
    decreases |p|
  {
    if |p| > 1 {
      KeyOfBelow(prefix + "." + p[0], p[1..]);
      assert prefix + "." + p[0] + "." + Join(p[1..]) == prefix + "." + Join(p);
    }
  }

  lemma KeyOfGoodPath(p: Path)
    requires GoodPath(p)
    ensures KeyOf("", p) == Join(p)
  {
    if |p| > 1 {
      KeyOfBelow(p[0], p[1..]);
    }
  }

  lemma {:induction false} LeafPathDotFree(t: Tree, p: Path)
    requires Plain(t) && LeafAt(t, p).Some?
    ensures forall i :: 0 <= i < |p| ==> DotFree(p[i])
    decreases |p|
  {
    if p != [] {
      LeafPathDotFree(t.fields[p[0]], p[1..]);
      assert p == [p[0]] + p[1..];
    }
  }

  lemma {:induction false} LeafIsListed(t: Tree, prefix: string, p: Path)
    requires Plain(t) && LeafAt(t, p).Some?
    ensures Pair(KeyOf(prefix, p), Text(LeafAt(t, p).value)) in Leaves(t, prefix)
    decreases t, |p| + 1, 0
  {
    if p != [] {
      var i :| 0 <= i < |t.keys| && t.keys[i] == p[0];
      LeafIsListed(t.fields[p[0]], Step(prefix, p[0]), p[1..]);
      FieldIsListed(t, prefix, 0, i, Pair(KeyOf(prefix, p), Text(LeafAt(t, p).value)));
    }
  }

  lemma {:induction false} FieldIsListed(t: Tree, prefix: string, from: nat, i: nat, pair: Pair)
    requires t.Dict? && from <= i < |t.keys| && t.keys[i] in t.fields
    requires pair in Leaves(t.fields[t.keys[i]], Step(prefix, t.keys[i]))
    ensures pair in FieldLeaves(t, prefix, from)
    decreases i - from
  {
    if from < i {
      FieldIsListed(t, prefix, from + 1, i, pair);
    }
  }

  lemma {:induction false} ListedIsLeaf(t: Tree, prefix: string, pair: Pair) returns (p: Path)
    requires Plain(t) && pair in Leaves(t, prefix)
    ensures LeafAt(t, p).Some? && pair == Pair(KeyOf(prefix, p), Text(LeafAt(t, p).value))
    decreases t
  {
    match t
    case Leaf(_) => p := [];
    case Dict(_, _) =>
      var i := ListedInField(t, prefix, 0, pair);
      hide Leaves;
      var rest := ListedIsLeaf(t.fields[t.keys[i]], Step(prefix, t.keys[i]), pair);
      p := [t.keys[i]] + rest;
      assert p[0] == t.keys[i] && p[1..] == rest;
  }

  lemma {:induction false} ListedInField(t: Tree, prefix: string, from: nat, pair: Pair) returns (i: nat)
    requires t.Dict? && pair in FieldLeaves(t, prefix, from)
    ensures i < |t.keys| && t.keys[i] in t.fields && pair in Leaves(t.fields[t.keys[i]], Step(prefix, t.keys[i]))
    decreases |t.keys| - from
  {
    if t.keys[from] in t.fields && pair in Leaves(t.fields[t.keys[from]], Step(prefix, t.keys[from])) {
      i := from;
    } else {
      i := ListedInField(t, prefix, from + 1, pair);
    }
  }

  function TextAt(t: Tree, p: Path): Option<string> {
    match LeafAt(t, p)
    case Some(value) => Some(Text(value))
    case None => None
  }

  /** The flat form of an object tree has, under each key, the leaf at the key's path. */
  lemma FlattenAt(t: Tree, key: string)
    requires Plain(t) && t.Dict? && GoodLeaves(t)
    ensures Get(Flatten(t), key) == TextAt(t, Split(key))
  {
    var leaves := Leaves(t, "");
    FirstWinsAt(leaves, key);
    forall i | 0 <= i < |leaves| && leaves[i].key == key
      ensures LeafAt(t, Split(key)).Some? && leaves[i].text == Text(LeafAt(t, Split(key)).value)
    {
      var p := ListedIsLeaf(t, "", leaves[i]);
      KeyOfGoodPath(p);
      LeafPathDotFree(t, p);
      SplitJoin(p);
    }
    if LeafAt(t, Split(key)).Some? {
      LeafIsListed(t, "", Split(key));
      KeyOfGoodPath(Split(key));
      JoinSplit(key);
    }
    if key in FirstWins(leaves) {
      var i := FirstIndex(leaves, key);
      assert FirstWins(leaves)[key] == leaves[i].text;
    }
  }

  lemma {:induction false} FirstIndex(leaves: seq<Pair>, key: string) returns (i: nat)
    requires exists j :: 0 <= j < |leaves| && leaves[j].key == key
    ensures i < |leaves| && leaves[i].key == key && forall j :: 0 <= j < i ==> leaves[j].key != key
  {
    if leaves[0].key == key {
      i := 0;
    } else {
      var j :| 0 <= j < |leaves| && leaves[j].key == key;
      assert leaves[1..][j - 1] == leaves[j];
      i := FirstIndex(leaves[1..], key);
      i := i + 1;
      forall m | 0 <= m < i ensures leaves[m].key != key {
        if m > 0 {
          assert leaves[m] == leaves[1..][m - 1];
        }
      }
    }
  }

  /** A flat form is that of the tree as soon as it agrees with the tree's leaves. */
  lemma FlattenIs(t: Tree, flat: map<string, string>)
    requires Plain(t) && t.Dict? && GoodLeaves(t)
    requires forall key :: Get(flat, key) == TextAt(t, Split(key))
    ensures Flatten(t) == flat
  {
    forall key ensures Get(Flatten(t), key) == Get(flat, key) {
      FlattenAt(t, key);
    }
    forall key ensures key in Flatten(t) <==> key in flat {
      assert Get(Flatten(t), key) == Get(flat, key);
    }
    forall key | key in flat ensures Flatten(t)[key] == flat[key] {
      assert Get(Flatten(t), key) == Get(flat, key);
    }
  }

  // -- No leaf below a leaf -----------------------------------------------------

  lemma {:induction false} LeafEndsPath(t: Tree, p: Path, q: Path)
    requires LeafAt(t, p).Some? && p < q
    ensures At(t, q) == None
    decreases |p|
  {
    if p != [] && At(t, q).Some? {
      assert p[0] == q[0] && p[1..] < q[1..];
      LeafEndsPath(t.fields[p[0]], p[1..], q[1..]);
    }
  }

  /** The flat form of an object tree never has a key that is the parent of another. */
  lemma FlattenIsPrefixFree(t: Tree)
    requires Plain(t) && t.Dict? && GoodLeaves(t)
    ensures PrefixFree(Flatten(t).Keys)
  {
    forall a, b | a in Flatten(t) && b in Flatten(t) ensures !ProperPrefix(Split(a), Split(b)) {
      FlattenAt(t, a);
      FlattenAt(t, b);
      if Split(a) < Split(b) {
        LeafEndsPath(t, Split(a), Split(b));
      }
    }
  }

  // -- Setting and removing a leaf ----------------------------------------------

  /** The object below a key, or a new one in place of anything that is not an object. */
  function Section(t: Tree, key: string): Tree
    requires t.Dict?
  {
    if key in t.fields && t.fields[key].Dict? then t.fields[key] else EMPTY
  }

  /** The leaf at *p* set to *value*, with the objects on the way there. */
  function Put(t: Tree, p: Path, value: Scalar): Tree
    requires t.Dict? && p != []
    ensures Put(t, p, value).Dict?
    decreases |p|
  {
    if |p| == 1 then PutField(t, p[0], Leaf(value))
    else PutField(t, p[0], Put(Section(t, p[0]), p[1..], value))
  }

  function WithoutKey(keys: seq<string>, key: string): seq<string> {
    if keys == [] then []
    else if keys[0] == key then keys[1..]
    else [keys[0]] + WithoutKey(keys[1..], key)
  }

  function RemoveField(t: Tree, key: string): Tree
    requires t.Dict?
  {
    Dict(WithoutKey(t.keys, key), t.fields - {key})
  }

  /** The leaf at *p* taken out of its object. */
  function Remove(t: Tree, p: Path): Tree
    requires p != [] && LeafAt(t, p).Some?
    ensures Remove(t, p).Dict?
    decreases |p|
  {
    if |p| == 1 then RemoveField(t, p[0])
    else PutField(t, p[0], Remove(t.fields[p[0]], p[1..]))
  }

  lemma PutFieldPlain(t: Tree, key: string, child: Tree)
    requires Plain(t) && t.Dict? && DotFree(key) && Plain(child)
    ensures Plain(PutField(t, key, child))
  {
  }

  lemma {:induction false} PutPlain(t: Tree, p: Path, value: Scalar)
    requires Plain(t) && t.Dict? && DotFreePath(p)
    ensures Plain(Put(t, p, value))
    decreases |p|
  {
    if |p| == 1 {
      PutFieldPlain(t, p[0], Leaf(value));
    } else {
      PutPlain(Section(t, p[0]), p[1..], value);
      PutFieldPlain(t, p[0], Put(Section(t, p[0]), p[1..], value));
    }
  }

  lemma LeafBelowLeaf(value: Scalar, q: Path)
    ensures LeafAt(Leaf(value), q) == if q == [] then Some(value) else None
  {
  }

  lemma LeafInside(t: Tree, q: Path)
    requires t.Dict? && q != []
    ensures LeafAt(t, q) == if q[0] in t.fields then LeafAt(t.fields[q[0]], q[1..]) else None
  {
  }

  lemma LeafInSection(t: Tree, key: string, q: Path)
    requires t.Dict? && q != []
    ensures LeafAt(Section(t, key), q) == if key in t.fields then LeafAt(t.fields[key], q) else None
  {
  }

  lemma ComparableInside(p: Path, q: Path)
    requires p != [] && q != [] && p[0] == q[0]
    ensures Comparable(p, q) <==> Comparable(p[1..], q[1..])
    ensures p == q <==> p[1..] == q[1..]
  {
    assert p == [p[0]] + p[1..] && q == [q[0]] + q[1..];
  }

  /** Setting a leaf removes exactly the leaves on its way and below it, and changes no other. */
  lemma {:induction false} LeafAfterPut(t: Tree, p: Path, value: Scalar, q: Path)
    requires t.Dict? && p != []
    ensures LeafAt(Put(t, p, value), q) == if q
              == p then Some(value) else if Comparable(p, q) then None else LeafAt(t, q)
    decreases |p|
  {
    if q != [] {
      LeafInside(Put(t, p, value), q);
      LeafInside(t, q);
      if q[0] == p[0] {
        ComparableInside(p, q);
        if |p| == 1 {
          LeafBelowLeaf(value, q[1..]);
        } else {
          LeafAfterPut(Section(t, p[0]), p[1..], value, q[1..]);
          if q[1..] != [] {
            LeafInSection(t, p[0], q[1..]);
          }
        }
      } else {
        assert !Comparable(p, q) && q != p;
      }
      hide LeafAt, Comparable;
    }
  }

  lemma {:induction false} WithoutKeyMembers(keys: seq<string>, key: string)
    requires Distinct(keys)
    ensures forall k :: k in WithoutKey(keys, key) <==> k in keys && k != key
    ensures Distinct(WithoutKey(keys, key))
  {
    if keys != [] {
      assert keys == [keys[0]] + keys[1..];
      assert keys[0] !in keys[1..];
      if keys[0] != key {
        WithoutKeyMembers(keys[1..], key);
        var r := WithoutKey(keys[1..], key);
        assert forall i :: 0 <= i < |r| ==> r[i] in r;
        assert WithoutKey(keys, key) == [keys[0]] + r;
      }
    }
  }

  lemma {:induction false} RemovePlain(t: Tree, p: Path)
    requires Plain(t) && p != [] && LeafAt(t, p).Some?
    ensures Plain(Remove(t, p))
    decreases |p|
  {
    if |p| == 1 {
      WithoutKeyMembers(t.keys, p[0]);
    } else {
      RemovePlain(t.fields[p[0]], p[1..]);
      PutFieldPlain(t, p[0], Remove(t.fields[p[0]], p[1..]));
    }
  }

  lemma {:induction false} LeafAfterRemove(t: Tree, p: Path, q: Path)
    requires p != [] && LeafAt(t, p).Some?
    ensures LeafAt(Remove(t, p), q) == if q == p then None else LeafAt(t, q)
    decreases |p|
  {
    if q != [] {
      if q[0] == p[0] {
        assert p == [p[0]] + p[1..] && q == [q[0]] + q[1..];
        if |p| > 1 {
          LeafAfterRemove(t.fields[p[0]], p[1..], q[1..]);
        } else if |q| > 1 {
          assert p < q;
          LeafEndsPath(t, p, q);
        }
      }
    }
  }
}
