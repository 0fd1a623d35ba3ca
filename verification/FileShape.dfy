/**
 transformer.file_shape: the renames and values a file's flat keys got, made to the parsed file itself,
 so that the two stay the same data. Also the rename overlay of transform.
 */
module FileShape {
  import opened Options
  import opened Paths
  import opened Trees
  import opened Flattening
  import opened TreeEdits

  // -- _locate ------------------------------------------------------------------

  datatype Hop = Name(key: string) | Index(i: nat)

  /** Where a key's value is or goes: the tree, with the objects made on the way, and the hops to it. */
  datatype Found = Found(tree: Tree, loc: seq<Hop>)

  predicate IsDigit(c: char) {
    '0' <= c <= '9'
  }

  function DigitValue(c: char): nat
    requires IsDigit(c)
  {
    c as int - '0' as int
  }

  function Number(digits: string): nat
    requires forall i :: 0 <= i < |digits| ==> IsDigit(digits[i])
  {
    if digits == "" then 0 else Number(digits[..|digits| - 1]) * 10 + DigitValue(digits[|digits| - 1])
  }

  /** A list index written in a key. */
  function ListIndex(head: string, length: nat): Option<nat> {
    if head != "" && (forall i :: 0 <= i < |head| ==> IsDigit(head[i])) && Number(head) < length
    then Some(Number(head)) else None
  }

  predicate IsContainer(t: Tree) {
    t.Dict? || t.List?
  }

  /** An object's literal key is tried before the path; lists are walked by index. */
  function Locate(node: Tree, rest: string, create: bool): Option<Found>
    decreases |rest|
  {
    if node.Dict? && rest in node.fields then Some(Found(node, [Name(rest)]))
    else
      match node
      case Leaf(_) => None
      case List(items) =>
        var i := ListIndex(Head(rest), |items|);
        if i == None then None
        else if !HasDot(rest) then Some(Found(node, [Index(i.value)]))
        else
          (match Locate(items[i.value], Tail(rest), create)
           case None => None
           case Some(f) => Some(Found(List(items[i.value := f.tree]), [Index(i.value)] + f.loc)))
      case Dict(_, fields) =>
        var head := Head(rest);
        if !HasDot(rest) then (if create then Some(Found(node, [Name(head)])) else None)
        else if (head !in fields || !IsContainer(fields[head])) && !create then None
        else
          var node' := if head in fields && IsContainer(fields[head]) then node else PutField(node, head, EMPTY);
          (match Locate(node'.fields[head], Tail(rest), create)
           case None => None
           case Some(f) => Some(Found(PutField(node', head, f.tree), [Name(head)] + f.loc)))
  }

  /** The value at the end of the hops. */
  function ValueAt(t: Tree, loc: seq<Hop>): Option<Tree>
    decreases |loc|
  {
    if loc == [] then Some(t)
    else
      match loc[0]
      case Name(key) => if t.Dict? && key in t.fields then ValueAt(t.fields[key], loc[1..]) else None
      case Index(i) => if t.List? && i < |t.items| then ValueAt(t.items[i], loc[1..]) else None
  }

  /** `container[name] = child` at the end of the hops. */
  function ReplaceAt(t: Tree, loc: seq<Hop>, child: Tree): Tree
    decreases |loc|
  {
    if loc == [] then child
    else
      match loc[0]
      case Name(key) =>
        if !t.Dict? then t
        else if |loc| == 1 then PutField(t, key, child)
        else if key in t.fields then PutField(t, key, ReplaceAt(t.fields[key], loc[1..], child))
        else t
      case Index(i) =>
        if t.List? && i < |t.items| then List(t.items[i := ReplaceAt(t.items[i], loc[1..], child)]) else t
  }

  /** `del container[name]` when the container is an object; a list keeps its element. */
  function DeleteAt(t: Tree, loc: seq<Hop>): Tree
    decreases |loc|
  {
    if loc == [] then t
    else
      match loc[0]
      case Name(key) =>
        if !(t.Dict? && key in t.fields) then t
        else if |loc| == 1 then RemoveField(t, key)
        else PutField(t, key, DeleteAt(t.fields[key], loc[1..]))
      case Index(i) =>
        if |loc| > 1 && t.List? && i < |t.items| then List(t.items[i := DeleteAt(t.items[i], loc[1..])]) else t
  }

  // -- The walk of _locate, node by node ----------------------------------------

  lemma {:induction false} ReplaceByItself(t: Tree, loc: seq<Hop>)
    requires ValueAt(t, loc).Some?
    ensures ReplaceAt(t, loc, ValueAt(t, loc).value) == t
    decreases |loc|
  {
    if loc != [] {
      match loc[0]
      case Name(key) => ReplaceByItself(t.fields[key], loc[1..]);
      case Index(i) => ReplaceByItself(t.items[i], loc[1..]);
    }
  }

  lemma {:induction false} ReplaceTwice(t: Tree, loc: seq<Hop>, a: Tree, b: Tree)
    requires ValueAt(t, loc).Some?
    ensures ReplaceAt(ReplaceAt(t, loc, a), loc, b) == ReplaceAt(t, loc, b)
    ensures ValueAt(ReplaceAt(t, loc, a), loc) == Some(a)
    decreases |loc|
  {
    if loc != [] {
      match loc[0]
      case Name(key) =>
        ReplaceTwice(t.fields[key], loc[1..], a, b);
        PutFieldTwice(t, key, ReplaceAt(t.fields[key], loc[1..], a), ReplaceAt(t.fields[key], loc[1..], b));
        assert loc[1..] == [] <==> |loc| == 1;
      case Index(i) =>
        ReplaceTwice(t.items[i], loc[1..], a, b);
    }
  }

  lemma {:induction false} ReplaceDeeper(t: Tree, loc: seq<Hop>, hop: Hop, child: Tree)
    requires ValueAt(t, loc).Some? && ValueAt(ValueAt(t, loc).value, [hop]).Some?
    ensures ReplaceAt(t, loc + [hop], child) == ReplaceAt(t, loc, ReplaceAt(ValueAt(t, loc).value, [hop], child))
    ensures ValueAt(t, loc + [hop]) == ValueAt(ValueAt(t, loc).value, [hop])
    decreases |loc|
  {
    if loc == [] {
      assert loc + [hop] == [hop];
    } else {
      assert (loc + [hop])[1..] == loc[1..] + [hop];
      match loc[0]
      case Name(key) =>
        ReplaceDeeper(t.fields[key], loc[1..], hop, child);
      case Index(i) =>
        ReplaceDeeper(t.items[i], loc[1..], hop, child);
    }
  }

  /** A place found below *loc*, seen from the whole tree. */
  function Lifted(whole: Tree, loc: seq<Hop>, found: Option<Found>): Option<Found> {
    match found
    case None => None
    case Some(f) => Some(Found(ReplaceAt(whole, loc, f.tree), loc + f.loc))
  }

  /** What Locate finds from a node is what it finds one hop further on. */
  lemma LiftedDeeper(whole: Tree, loc: seq<Hop>, hop: Hop, found: Option<Found>)
    requires ValueAt(whole, loc).Some? && ValueAt(ValueAt(whole, loc).value, [hop]).Some?
    ensures Lifted(whole, loc + [hop], found) ==
            Lifted(whole, loc, match found
                               case None => None
                               case Some(f) => Some(Found(ReplaceAt(ValueAt(whole, loc).value, [hop], f.tree),
                                                          [hop] + f.loc)))
  {
    if found.Some? {
      ReplaceDeeper(whole, loc, hop, found.value.tree);
      assert loc + [hop] + found.value.loc == loc + ([hop] + found.value.loc);
    }
  }

  /** _locate as it runs: one hop at a time, making objects in place where *create* asks for them. */
  method Walk(tree: Tree, key: string, create: bool) returns (found: Option<Found>)
    ensures found == Locate(tree, key, create)
  {
    var whole, node, rest, loc := tree, tree, key, [];
    assert forall s: seq<Hop> :: [] + s == s;
    while true
      invariant ValueAt(whole, loc) == Some(node)
      invariant Locate(tree, key, create) == Lifted(whole, loc, Locate(node, rest, create))
      decreases |rest|
    {
      ReplaceByItself(whole, loc);
      if node.Dict? && rest in node.fields {
        return Some(Found(whole, loc + [Name(rest)]));
      }
      var head := Head(rest);
      if node.List? {
        var i := ListIndex(head, |node.items|);
        if i == None {
          return None;
        }
        if !HasDot(rest) {
          return Some(Found(whole, loc + [Index(i.value)]));
        }
        LiftedDeeper(whole, loc, Index(i.value), Locate(node.items[i.value], Tail(rest), create));
        ReplaceDeeper(whole, loc, Index(i.value), node);
        loc, node, rest := loc + [Index(i.value)], node.items[i.value], Tail(rest);
        continue;
      }
      if !node.Dict? {
        return None;
      }
      if !HasDot(rest) {
        return if create then Some(Found(whole, loc + [Name(head)])) else None;
      }
      if head !in node.fields || !IsContainer(node.fields[head]) {
        if !create {
          return None;
        }
        var made := PutField(node, head, EMPTY);
        forall f: Tree { ReplaceTwice(whole, loc, made, f); }
        ReplaceTwice(whole, loc, made, made);
        whole, node := ReplaceAt(whole, loc, made), made;
      }
      LiftedDeeper(whole, loc, Name(head), Locate(node.fields[head], Tail(rest), create));
      ReplaceDeeper(whole, loc, Name(head), node);
      loc, node, rest := loc + [Name(head)], node.fields[head], Tail(rest);
    }
  }

  // -- file_shape ---------------------------------------------------------------

  /** One entry of variables_map: the new key and the key it renames. */
  datatype Rename = Rename(target: string, source: string)

  predicate IsNested(t: Tree) {
    match t
    case Leaf(_) => false
    case List(_) => true
    case Dict(_, fields) => exists k :: k in fields && IsContainer(fields[k])
  }

  /** One rename made to the tree: only a value moves, never a whole section. */
  function RenameInTree(t: Tree, r: Rename): Tree {
    match Locate(t, r.source, false)
    case None => t
    case Some(found) =>
      match ValueAt(t, found.loc)
      case Some(Leaf(value)) =>
        var moved := DeleteAt(t, found.loc);
        (match Locate(moved, r.target, true)
         case None => moved
         case Some(goal) => ReplaceAt(goal.tree, goal.loc, Leaf(value)))
      case _ => t
  }

  function RenameAll(t: Tree, renames: seq<Rename>): Tree
    decreases |renames|
  {
    if renames == [] then t else RenameAll(RenameInTree(t, renames[0]), renames[1..])
  }

  /** One flat key's value put into the tree, unless the file already has it. */
  function EditInTree(t: Tree, original: map<string, string>, key: string, value: string): Tree {
    if Get(original, key) == Some(value) then t
    else
      match Locate(t, key, true)
      case None => t
      case Some(goal) => ReplaceAt(goal.tree, goal.loc, Leaf(TextValue(value)))
  }

  function EditAll(t: Tree, original: map<string, string>, order: seq<string>, flat: map<string, string>): Tree
    requires forall k :: k in order ==> k in flat
  {
    if order == [] then t
    else
      var init, last := order[..|order| - 1], order[|order| - 1];
      EditInTree(EditAll(t, original, init, flat), original, last, flat[last])
  }

  /** A flat file is one object of values. */
  function FlatTree(order: seq<string>, flat: map<string, string>): Tree {
    Dict(order, map k | k in flat :: Leaf(TextValue(flat[k])))
  }

  /** file_shape. *order* is the order of flat_data's keys. */
  method Shape(parsed: Tree, order: seq<string>, flat: map<string, string>, renames: seq<Rename>) returns (shape: Tree)
    requires Distinct(order) && forall k :: k in order <==> k in flat
    ensures shape == if !IsNested(parsed) then FlatTree(order, flat)
                     else
                       var renamed := RenameAll(parsed, renames);
                       EditAll(renamed, Flatten(renamed), order, flat)
  {
    if !IsNested(parsed) {
      return FlatTree(order, flat);
    }
    var tree := parsed;
    for i := 0 to |renames|
      invariant RenameAll(tree, renames[i..]) == RenameAll(parsed, renames)
    {
      var found := Walk(tree, renames[i].source, false);
      if found == None || (ValueAt(tree, found.value.loc).Some? && IsContainer(ValueAt(tree, found.value.loc).value)) {
        assert RenameInTree(tree, renames[i]) == tree;
        continue;
      }
      var value := ValueAt(tree, found.value.loc);
      if value.None? {
        continue;
      }
      tree := DeleteAt(tree, found.value.loc);
      var goal := Walk(tree, renames[i].target, true);
      if goal.Some? {
        tree := ReplaceAt(goal.value.tree, goal.value.loc, value.value);
      }
    }
    ghost var renamed := tree;
    var original := PyFlatten(tree, "");
    for i := 0 to |order|
      invariant tree == EditAll(renamed, original, order[..i], flat)
    {
      var key := order[i];
      assert order[..i + 1][..i] == order[..i];
      if Get(original, key) != Some(flat[key]) {
        var goal := Walk(tree, key, true);
        if goal.Some? {
          tree := ReplaceAt(goal.value.tree, goal.value.loc, Leaf(TextValue(flat[key])));
        }
      }
    }
    assert order[..|order|] == order;
    shape := tree;
  }

  // -- The same on flat keys ----------------------------------------------------

  /** One entry of variables_map on the flat keys, as transform applies it. */
  function RenameInFlat(flat: map<string, string>, r: Rename): map<string, string> {
    if r.source in flat then (flat - {r.source})[r.target := flat[r.source]] else flat
  }

  function Overlay(flat: map<string, string>, renames: seq<Rename>): map<string, string>
    decreases |renames|
  {
    if renames == [] then flat else Overlay(RenameInFlat(flat, renames[0]), renames[1..])
  }

  /** transform: flatten, then rename key by key in variables_map's order. */
  method Transform(parsed: Tree, renames: seq<Rename>) returns (flat: map<string, string>)
    ensures flat == Overlay(Flatten(parsed), renames)
  {
    flat := PyFlatten(parsed, "");
    for i := 0 to |renames|
      invariant Overlay(flat, renames[i..]) == Overlay(Flatten(parsed), renames)
    {
      var r := renames[i];
      if r.source in flat {
        var value := flat[r.source];
        flat := flat - {r.source};
        flat := flat[r.target := value];
      }
    }
  }

  // -- On object trees, locating is walking the key's path ----------------------

  function Hops(p: Path): (loc: seq<Hop>)
    ensures |loc| == |p|
    ensures forall i :: 0 <= i < |p| ==> loc[i] == Name(p[i])
  {
    seq(|p|, i requires 0 <= i < |p| => Name(p[i]))
  }

  /** One step of locating in an object, without creating anything. */
  lemma LocateStep(t: Tree, key: string)
    requires t.Dict?
    ensures key in t.fields ==> Locate(t, key, false) == Some(Found(t, [Name(key)]))
    ensures key !in t.fields && (!HasDot(key) || Head(key) !in t.fields || t.fields[Head(key)].Leaf?) ==>
              Locate(t, key, false) == None
    ensures key !in t.fields && HasDot(key) && Head(key) in t.fields && t.fields[Head(key)].Dict?
       ==> Locate(t, key, false) ==
           match Locate(t.fields[Head(key)], Tail(key), false)
           case None => None
           case Some(f) => Some(Found(PutField(t, Head(key), f.tree), [Name(Head(key))] + f.loc))
  {
  }

  lemma HopsOf(name: string, p: Path)
    ensures Hops([name] + p) == [Name(name)] + Hops(p)
  {
  }

  lemma AtUnder(t: Tree, name: string, p: Path, loc: seq<Hop>)
    requires t.Dict? && name in t.fields && p != [] && loc != []
    ensures At(t, [name] + p) == At(t.fields[name], p)
    ensures ValueAt(t, [Name(name)] + loc) == ValueAt(t.fields[name], loc)
  {
    assert ([name] + p)[1..] == p && ([Name(name)] + loc)[1..] == loc;
  }

  lemma {:induction false} LocateOnPlain(t: Tree, key: string)
    requires Plain(t) && t.Dict?
    ensures match Locate(t, key, false)
            case None => At(t, Split(key)) == None
            case Some(f) => f.tree == t && f.loc == Hops(Split(key)) && At(t, Split(key)) == ValueAt(t, f.loc)
                            && At(t, Split(key)).Some?
    decreases |key|
  {
    var head := Head(key);
    LocateStep(t, key);
    if key in t.fields {
      assert Split(key) == [key];
      assert Hops([key]) == [Name(key)];
      assert At(t, [key]) == Some(t.fields[key]) && ValueAt(t, [Name(key)]) == Some(t.fields[key]);
    } else if !HasDot(key) {
      assert Split(key) == [key];
    } else if head !in t.fields {
      assert Split(key)[0] == head;
    } else {
      var child := t.fields[head];
      assert Split(key) == [head] + Split(Tail(key));
      assert Plain(child);
      if child.Dict? {
        LocateOnPlain(child, Tail(key));
        AtUnder(t, head, Split(Tail(key)), Hops(Split(Tail(key))));
        HopsOf(head, Split(Tail(key)));
        assert PutField(t, head, child) == t;
        hide Locate, Plain, At, ValueAt, Hops, Split, PutField;
      } else {
        assert At(child, Split(Tail(key))) == None;
        assert At(t, [head] + Split(Tail(key))) == None;
      }
    }
  }

  lemma {:induction false} PutIsLocateAndSet(t: Tree, key: string, value: Scalar)
    requires Plain(t) && t.Dict?
    ensures Locate(t, key, true).Some?
    ensures var f := Locate(t, key, true).value;
            f.loc != [] && f.tree.Dict? && ReplaceAt(f.tree, f.loc, Leaf(value)) == Put(t, Split(key), value)
    decreases |key|
  {
    var head := Head(key);
    if key in t.fields {
      assert Split(key) == [key];
    } else if HasDot(key) {
      var child := Section(t, head);
      PutIsLocateAndSet(child, Tail(key), value);
      var f := Locate(child, Tail(key), true).value;
      var t' := if head in t.fields && IsContainer(t.fields[head]) then t else PutField(t, head, EMPTY);
      assert t'.fields[head] == child;
      var found := Found(PutField(t', head, f.tree), [Name(head)] + f.loc);
      assert Locate(t, key, true) == Some(found);
      assert found.loc[1..] == f.loc && |found.loc| > 1;
      assert found.tree.fields[head] == f.tree;
      PutFieldTwice(t', head, f.tree, Put(child, Split(Tail(key)), value));
      PutFieldTwice(t, head, EMPTY, Put(child, Split(Tail(key)), value));
      assert Split(key)[1..] == Split(Tail(key));
    }
  }

  lemma PutFieldTwice(t: Tree, key: string, a: Tree, b: Tree)
    requires t.Dict?
    ensures PutField(PutField(t, key, a), key, b) == PutField(t, key, b)
  {
    assert t.fields[key := a][key := b] == t.fields[key := b];
  }

  lemma {:induction false} DeleteIsRemove(t: Tree, p: Path)
    requires Plain(t) && p != [] && LeafAt(t, p).Some?
    ensures DeleteAt(t, Hops(p)) == Remove(t, p)
    decreases |p|
  {
    assert Hops(p)[1..] == Hops(p[1..]);
    if |p| > 1 {
      DeleteIsRemove(t.fields[p[0]], p[1..]);
    }
  }

  /** On an object tree a rename takes the leaf away and puts it at the new key's path. */
  lemma RenameOnPlain(t: Tree, r: Rename)
    requires Plain(t) && t.Dict?
    ensures RenameInTree(t, r) ==
            if LeafAt(t, Split(r.source)).Some?
            then Put(Remove(t, Split(r.source)), Split(r.target), LeafAt(t, Split(r.source)).value)
            else t
  {
    LocateOnPlain(t, r.source);
    if LeafAt(t, Split(r.source)).Some? {
      DeleteIsRemove(t, Split(r.source));
      RemovePlain(t, Split(r.source));
      PutIsLocateAndSet(Remove(t, Split(r.source)), r.target, LeafAt(t, Split(r.source)).value);
    }
  }

  // -- One rename, on the tree and on the flat keys -----------------------------

  /** An object tree whose flat form stands for it. */
  ghost predicate Sound(t: Tree) {
    Plain(t) && t.Dict? && GoodLeaves(t)
  }

  lemma PutSound(t: Tree, key: string, value: Scalar)
    requires Sound(t) && GoodKey(key)
    ensures Sound(Put(t, Split(key), value))
  {
    PutPlain(t, Split(key), value);
    GoodKeyGoodPath(key);
    forall p | LeafAt(Put(t, Split(key), value), p).Some? ensures GoodPath(p) {
      LeafAfterPut(t, Split(key), value, p);
    }
  }

  lemma RemoveSound(t: Tree, p: Path)
    requires Sound(t) && p != [] && LeafAt(t, p).Some?
    ensures Sound(Remove(t, p))
  {
    RemovePlain(t, p);
    forall q | LeafAt(Remove(t, p), q).Some? ensures GoodPath(q) {
      LeafAfterRemove(t, p, q);
    }
  }

  lemma RenameSound(t: Tree, r: Rename)
    requires Sound(t) && GoodKey(r.target)
    ensures Sound(RenameInTree(t, r))
  {
    RenameOnPlain(t, r);
    if LeafAt(t, Split(r.source)).Some? {
      RemoveSound(t, Split(r.source));
      PutSound(Remove(t, Split(r.source)), r.target, LeafAt(t, Split(r.source)).value);
    }
  }

  /** What a rename makes of each key. */
  lemma RenameAt(t: Tree, r: Rename, key: string)
    requires Sound(t)
    ensures TextAt(RenameInTree(t, r), Split(key)) ==
            if LeafAt(t, Split(r.source)) == None then TextAt(t, Split(key))
            else if key == r.target then TextAt(t, Split(r.source))
            else if Comparable(Split(r.target), Split(key)) || key == r.source then None
            else TextAt(t, Split(key))
  {
    RenameOnPlain(t, r);
    if LeafAt(t, Split(r.source)).Some? {
      RemovePlain(t, Split(r.source));
      LeafAfterPut(Remove(t, Split(r.source)), Split(r.target), LeafAt(t, Split(r.source)).value, Split(key));
      LeafAfterRemove(t, Split(r.source), Split(key));
      if Split(key) == Split(r.target) {
        SplitInjective(key, r.target);
      }
      if Split(key) == Split(r.source) {
        SplitInjective(key, r.source);
      }
    }
  }

  /**
   Renaming in the tree commutes with renaming the flat keys exactly when the renamed keys still have a
   nested form: when none becomes the parent of another.
   */
  lemma RenameCommutesExactly(t: Tree, r: Rename)
    requires Sound(t) && GoodKey(r.target)
    ensures Flatten(RenameInTree(t, r)) == RenameInFlat(Flatten(t), r)
            <==> PrefixFree(RenameInFlat(Flatten(t), r).Keys)
  {
    RenameSound(t, r);
    var flat := RenameInFlat(Flatten(t), r);
    if PrefixFree(flat.Keys) {
      FlattenAt(t, r.source);
      forall key ensures Get(flat, key) == TextAt(RenameInTree(t, r), Split(key)) {
        FlattenAt(t, key);
        RenameAt(t, r, key);
        if key in flat && r.target in flat && Split(key) == Split(r.target) {
          SplitInjective(key, r.target);
        }
        if key in flat && r.target in flat && Comparable(Split(r.target), Split(key)) {
          assert !ProperPrefix(Split(r.target), Split(key)) && !ProperPrefix(Split(key), Split(r.target));
        }
      }
      FlattenIs(RenameInTree(t, r), flat);
    } else {
      FlattenIsPrefixFree(RenameInTree(t, r));
    }
  }

  // -- The whole of file_shape --------------------------------------------------

  /** Each leaf's key is one of *keys*. */
  ghost predicate LeavesWithin(t: Tree, keys: set<string>) {
    forall key :: TextAt(t, Split(key)).Some? ==> key in keys
  }

  /** Whatever gets lost on the way, the renamed tree never has a leaf the renamed flat keys do not. */
  lemma {:induction false} RenamedLeavesWithin(t: Tree, flat: map<string, string>, renames: seq<Rename>)
    requires Sound(t) && LeavesWithin(t, flat.Keys) && forall r :: r in renames ==> GoodKey(r.target)
    ensures Sound(RenameAll(t, renames)) && LeavesWithin(RenameAll(t, renames), Overlay(flat, renames).Keys)
    decreases |renames|
  {
    if renames != [] {
      var r := renames[0];
      var t', flat' := RenameInTree(t, r), RenameInFlat(flat, r);
      RenameSound(t, r);
      forall key | TextAt(t', Split(key)).Some? ensures key in flat' {
        RenameAt(t, r, key);
        RenameAt(t, r, r.source);
        assert TextAt(t, Split(r.source)).Some? ==> r.source in flat;
      }
      RenamedLeavesWithin(t', flat', renames[1..]);
    }
  }

  /** What putting one flat value into the tree makes of each key. */
  lemma EditAt(t: Tree, original: map<string, string>, key: string, value: string, other: string)
    requires Sound(t) && GoodKey(key)
    ensures Sound(EditInTree(t, original, key, value))
    ensures TextAt(EditInTree(t, original, key, value), Split(other)) ==
            if Get(original, key) == Some(value) then TextAt(t, Split(other))
            else if other == key then Some(value)
            else if Comparable(Split(key), Split(other)) then None
            else TextAt(t, Split(other))
  {
    PutIsLocateAndSet(t, key, TextValue(value));
    PutSound(t, key, TextValue(value));
    LeafAfterPut(t, Split(key), TextValue(value), Split(other));
    if Split(other) == Split(key) {
      SplitInjective(other, key);
    }
  }

  lemma Apart(keys: set<string>, a: string, b: string)
    requires PrefixFree(keys) && a in keys && b in keys && a != b
    ensures !Comparable(Split(a), Split(b))
  {
    if Split(a) == Split(b) {
      SplitInjective(a, b);
    }
    assert !ProperPrefix(Split(a), Split(b)) && !ProperPrefix(Split(b), Split(a));
  }

  /** With keys that have a nested form, each edit sets its key and leaves the others alone. */
  lemma {:induction false} EditedAt(t: Tree, original: map<string, string>, order: seq<string>,
                                    flat: map<string, string>, key: string)
    requires Sound(t) && PrefixFree(flat.Keys) && LeavesWithin(t, flat.Keys) && Flatten(t) == original
    requires (forall k :: k in order ==> k in flat) && (forall k :: k in flat ==> GoodKey(k))
    ensures Sound(EditAll(t, original, order, flat))
    ensures key in flat ==> TextAt(EditAll(t, original, order, flat), Split(key)) ==
                            if key in order then Some(flat[key]) else TextAt(t, Split(key))
    ensures key !in flat ==> TextAt(EditAll(t, original, order, flat), Split(key)) == None
    decreases |order|
  {
    if order != [] {
      var init, last := order[..|order| - 1], order[|order| - 1];
      assert order == init + [last];
      assert forall k :: k in order <==> k in init || k == last;
      var before := EditAll(t, original, init, flat);
      assert EditAll(t, original, order, flat) == EditInTree(before, original, last, flat[last]);
      hide Sound, LeavesWithin, PrefixFree, EditAll, EditInTree, TextAt, Flatten, Comparable, Split, GoodKey;
      EditedAt(t, original, init, flat, key);
      EditedAt(t, original, init, flat, last);
      EditAt(before, original, last, flat[last], key);
      FlattenAt(t, last);
      if key in flat && key != last {
        Apart(flat.Keys, last, key);
      }
    }
  }

  /** A flat value the file already has is not put in again: the leaf keeps its type, a number stays a number. */
  lemma {:induction false} UneditedKeepsItsType(t: Tree, original: map<string, string>, order: seq<string>,
                                                flat: map<string, string>, key: string)
    requires Sound(t) && PrefixFree(flat.Keys) && LeavesWithin(t, flat.Keys) && Flatten(t) == original
    requires (forall k :: k in order ==> k in flat) && (forall k :: k in flat ==> GoodKey(k))
    requires key in flat && Get(original, key) == Some(flat[key])
    ensures LeafAt(EditAll(t, original, order, flat), Split(key)) == LeafAt(t, Split(key))
    decreases |order|
  {
    if order != [] {
      var init, last := order[..|order| - 1], order[|order| - 1];
      assert order == init + [last];
      assert forall k :: k in order <==> k in init || k == last;
      var before := EditAll(t, original, init, flat);
      assert EditAll(t, original, order, flat) == EditInTree(before, original, last, flat[last]);
      EditedAt(t, original, init, flat, key);
      UneditedKeepsItsType(t, original, init, flat, key);
      if Get(original, last) != Some(flat[last]) {
        hide EditAll, Flatten, Split;
        PutIsLocateAndSet(before, last, TextValue(flat[last]));
        LeafAfterPut(before, Split(last), TextValue(flat[last]), Split(key));
        Apart(flat.Keys, last, key);
        hide *;
      }
    }
  }

  lemma {:induction false} EditAllSound(t: Tree, original: map<string, string>, order: seq<string>,
                                        flat: map<string, string>)
    requires Sound(t) && (forall k :: k in order ==> k in flat && GoodKey(k))
    ensures Sound(EditAll(t, original, order, flat))
    decreases |order|
  {
    if order != [] {
      var init, last := order[..|order| - 1], order[|order| - 1];
      assert order == init + [last];
      assert forall k :: k in init ==> k in order;
      EditAllSound(t, original, init, flat);
      EditAt(EditAll(t, original, init, flat), original, last, flat[last], last);
    }
  }

  /**
   The document and the flat keys are the same data: for an object tree, flattening what file_shape gives
   yields flat_data exactly when flat_data's keys have a nested form. flat_data has the renamed file's
   keys and any values; no condition is put on the keys between two renames.
   */
  lemma ShapeFlattensBack(parsed: Tree, order: seq<string>, flat: map<string, string>, renames: seq<Rename>)
    requires Sound(parsed) && forall r :: r in renames ==> GoodKey(r.target)
    requires forall k :: k in order <==> k in flat
    requires flat.Keys == Overlay(Flatten(parsed), renames).Keys
    ensures var renamed := RenameAll(parsed, renames);
            Flatten(EditAll(renamed, Flatten(renamed), order, flat)) == flat <==> PrefixFree(flat.Keys)
  {
    forall key | TextAt(parsed, Split(key)).Some? ensures key in Flatten(parsed) {
      FlattenAt(parsed, key);
    }
    RenamedLeavesWithin(parsed, Flatten(parsed), renames);
    var renamed := RenameAll(parsed, renames);
    forall k | k in flat ensures GoodKey(k) {
      forall key | key in Flatten(parsed) ensures GoodKey(key) {
        FlatKeysAreGood(parsed, key);
      }
      OverlayKeysAreGood(Flatten(parsed), renames, k);
    }
    EditAllSound(renamed, Flatten(renamed), order, flat);
    var shape := EditAll(renamed, Flatten(renamed), order, flat);
    if PrefixFree(flat.Keys) {
      forall key ensures Get(flat, key) == TextAt(shape, Split(key)) {
        EditedAt(renamed, Flatten(renamed), order, flat, key);
      }
      FlattenIs(shape, flat);
    } else {
      FlattenIsPrefixFree(shape);
    }
  }

  /** Edits leave an object's keys in their order; new ones come after them. */
  lemma {:induction false} KeysStayInOrder(t: Tree, original: map<string, string>, order: seq<string>,
                                           flat: map<string, string>)
    requires Sound(t) && (forall k :: k in order ==> k in flat && GoodKey(k))
    ensures EditAll(t, original, order, flat).Dict? && t.keys <= EditAll(t, original, order, flat).keys
    decreases |order|
  {
    if order != [] {
      var init, last := order[..|order| - 1], order[|order| - 1];
      assert order == init + [last];
      assert forall k :: k in init ==> k in order;
      KeysStayInOrder(t, original, init, flat);
      EditAllSound(t, original, init, flat);
      PutIsLocateAndSet(EditAll(t, original, init, flat), last, TextValue(flat[last]));
    }
  }

  lemma FlatKeysAreGood(t: Tree, key: string)
    requires Sound(t) && key in Flatten(t)
    ensures GoodKey(key)
  {
    FlattenAt(t, key);
    GoodKeyGoodPath(key);
  }

  lemma {:induction false} OverlayKeysAreGood(flat: map<string, string>, renames: seq<Rename>, key: string)
    requires forall k :: k in flat ==> GoodKey(k)
    requires key in Overlay(flat, renames) && forall r :: r in renames ==> GoodKey(r.target)
    ensures GoodKey(key)
    decreases |renames|
  {
    if renames != [] {
      OverlayKeysAreGood(RenameInFlat(flat, renames[0]), renames[1..], key);
    }
  }

  /** A flat file's shape is flat_data itself, whatever its keys look like. */
  lemma FlatShapeFlattensBack(order: seq<string>, flat: map<string, string>)
    requires Distinct(order) && forall k :: k in order <==> k in flat
    ensures Flatten(FlatTree(order, flat)) == flat
  {
    var leaves := Leaves(FlatTree(order, flat), "");
    FlatLeaves(order, flat);
    assert Flatten(FlatTree(order, flat)) == FirstWins(leaves);
    hide *;
    forall key ensures Get(FirstWins(leaves), key) == Get(flat, key) {
      FirstOfFlat(order, flat, leaves, key);
    }
    SameText(FirstWins(leaves), flat);
  }

  lemma FlatLeaves(order: seq<string>, flat: map<string, string>)
    requires forall k :: k in order <==> k in flat
    ensures var leaves := Leaves(FlatTree(order, flat), "");
            |leaves| == |order| && forall i :: 0 <= i < |order| ==> leaves[i] == Pair(order[i], flat[order[i]])
  {
    FlatTreeLeaves(order, flat, 0);
  }

  lemma FirstOfFlat(order: seq<string>, flat: map<string, string>, leaves: seq<Pair>, key: string)
    requires Distinct(order) && |leaves| == |order| && forall k :: k in order <==> k in flat
    requires forall i :: 0 <= i < |order| ==> leaves[i] == Pair(order[i], flat[order[i]])
    ensures Get(FirstWins(leaves), key) == Get(flat, key)
  {
    FirstWinsAt(leaves, key);
    hide FirstWins;
    if key in flat {
      var i :| 0 <= i < |order| && order[i] == key;
      assert leaves[i] == Pair(key, flat[key]);
    }
  }

  lemma SameText(a: map<string, string>, b: map<string, string>)
    requires forall key :: Get(a, key) == Get(b, key)
    ensures a == b
  {
    forall key ensures key in a <==> key in b {
      assert Get(a, key) == Get(b, key);
    }
    forall key | key in a ensures a[key] == b[key] {
      assert Get(a, key) == Get(b, key);
    }
  }

  lemma {:induction false} FlatTreeLeaves(order: seq<string>, flat: map<string, string>, i: nat)
    requires i <= |order| && forall k :: k in order <==> k in flat
    ensures var leaves := FieldLeaves(FlatTree(order, flat), "", i);
            |leaves| == |order| - i && forall j :: 0 <= j < |leaves| ==>
                leaves[j] == Pair(order[i + j], flat[order[i + j]])
    decreases |order| - i
  {
    if i < |order| {
      FlatTreeLeaves(order, flat, i + 1);
      assert order[i] in flat;
    }
  }
}
