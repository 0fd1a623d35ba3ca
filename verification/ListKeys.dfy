/**
 Flat keys of files with lists: a leaf's key names the objects' keys and the lists' indices on the way to it,
 it is what flattening gives the leaf, and where _locate finds it again.
 */
module ListKeys {
  import opened Options
  import opened Paths
  import opened Trees
  import opened Flattening
  import opened TreeEdits
  import opened FileShape

  /** Objects list their keys once, with no dot in any and none empty; lists may stand anywhere. */
  ghost predicate Tidy(t: Tree)
    decreases t
  {
    match t
    case Leaf(_) => true
    case List(items) => forall i :: 0 <= i < |items| ==> Tidy(items[i])
    case Dict(keys, _) =>
      && (forall k :: k in t.keys <==> k in t.fields)
      && (forall k :: k in t.fields ==> k != "" && '.' !in k && Tidy(t.fields[k]))
  }

  /** How a hop is written in a key: an index in decimal digits. */
  function Written(hop: Hop): string {
    match hop
    case Name(key) => key
    case Index(i) => Digits(i)
  }

  function Joined(loc: seq<Hop>): string
    requires loc != []
  {
    if |loc| == 1 then Written(loc[0]) else Written(loc[0]) + "." + Joined(loc[1..])
  }

  /** The key a leaf at *loc* below *prefix* gets. */
  function KeyBelow(prefix: string, loc: seq<Hop>): string {
    if loc == [] then prefix else if prefix == "" then Joined(loc) else prefix + "." + Joined(loc)
  }

  // -- Indices in decimal -------------------------------------------------------

  /** The ten digits. */
  lemma OneDigit(d: nat)
    requires d < 10
    ensures IsDigit("0123456789"[d]) && DigitValue("0123456789"[d]) == d
    ensures "0123456789"[d] == '0' <==> d == 0
  {
  }

  lemma OneMoreDigit(head: string, d: char)
    requires IsDigit(d) && AllDigits(head)
    ensures AllDigits(head + [d])
    ensures Number(head + [d]) == Number(head) * 10 + DigitValue(d)
  {
    assert (head + [d])[..|head|] == head;
  }

  ghost predicate AllDigits(s: string) {
    forall i :: 0 <= i < |s| ==> IsDigit(s[i])
  }

  lemma DigitsStep(n: nat)
    ensures Digits(n) == (if n < 10 then "" else Digits(n / 10)) + ["0123456789"[n % 10]]
  {
    assert n < 10 ==> n % 10 == n;
  }

  lemma {:induction false} DigitsAreDigits(n: nat)
    ensures Digits(n) != "" && AllDigits(Digits(n)) && (n > 0 ==> Digits(n)[0] != '0')
  {
    DigitsStep(n);
    OneDigit(n % 10);
    if n >= 10 {
      hide Digits;
      DigitsAreDigits(n / 10);
    }
  }

  lemma {:induction false} NumberOfDigits(n: nat)
    ensures Digits(n) != "" && AllDigits(Digits(n)) && '.' !in Digits(n) && (n > 0 ==> Digits(n)[0] != '0')
    ensures Number(Digits(n)) == n
  {
    DigitsAreDigits(n);
    DigitsStep(n);
    OneDigit(n % 10);
    hide Digits;
    if n < 10 {
      OneMoreDigit("", "0123456789"[n % 10]);
      assert Digits(n) == "" + ["0123456789"[n % 10]];
      assert Number("") == 0;
    } else {
      NumberOfDigits(n / 10);
      OneMoreDigit(Digits(n / 10), "0123456789"[n % 10]);
    }
  }

  lemma DigitsAreIndex(i: nat, length: nat)
    requires i < length
    ensures ListIndex(Digits(i), length) == Some(i)
  {
    NumberOfDigits(i);
  }

  // -- Locating a leaf by its key -----------------------------------------------

  lemma JoinedHead(loc: seq<Hop>)
    requires loc != [] && Written(loc[0]) != "" && DotFree(Written(loc[0]))
    ensures Head(Joined(loc)) == Written(loc[0])
    ensures HasDot(Joined(loc)) <==> |loc| > 1
    ensures |loc| > 1 ==> Tail(Joined(loc)) == Joined(loc[1..])
  {
    if |loc| > 1 {
      HeadOf(Written(loc[0]), Joined(loc[1..]));
    }
  }

  lemma LocateInField(t: Tree, key: string)
    requires t.Dict? && key !in t.fields && HasDot(key) && Head(key) in t.fields && IsContainer(t.fields[Head(key)])
    ensures Locate(t, key, false) ==
            match Locate(t.fields[Head(key)], Tail(key), false)
            case None => None
            case Some(f) => Some(Found(PutField(t, Head(key), f.tree), [Name(Head(key))] + f.loc))
  {
  }

  lemma LocateInItem(t: Tree, key: string, i: nat)
    requires t.List? && i < |t.items| && ListIndex(Head(key), |t.items|) == Some(i)
    ensures Locate(t, key, false) ==
            if !HasDot(key) then Some(Found(t, [Index(i)]))
            else
              match Locate(t.items[i], Tail(key), false)
              case None => None
              case Some(f) => Some(Found(List(t.items[i := f.tree]), [Index(i)] + f.loc))
  {
  }

  lemma OneHop(t: Tree, loc: seq<Hop>)
    requires Tidy(t) && loc != [] && ValueAt(t, loc).Some?
    ensures Written(loc[0]) != "" && DotFree(Written(loc[0]))
    ensures match loc[0]
            case Name(k) =>
              t.Dict? && k in t.fields && Tidy(t.fields[k]) && ValueAt(t.fields[k], loc[1..]) == ValueAt(t, loc)
            case Index(i) =>
              t.List? && i < |t.items| && Tidy(t.items[i]) && ValueAt(t.items[i], loc[1..]) == ValueAt(t, loc)
  {
    match loc[0]
    case Name(k) =>
    case Index(i) => NumberOfDigits(i);
  }

  lemma FieldLeafIsLocated(t: Tree, loc: seq<Hop>)
    requires Tidy(t) && |loc| > 1 && loc[0].Name? && ValueAt(t, loc).Some?
    requires t.Dict? && loc[0].key in t.fields
    requires Locate(t.fields[loc[0].key], Joined(loc[1..]), false) == Some(Found(t.fields[loc[0].key], loc[1..]))
    ensures Locate(t, Joined(loc), false) == Some(Found(t, loc))
  {
    var k := loc[0].key;
    OneHop(t, loc);
    JoinedHead(loc);
    assert IsContainer(t.fields[k]) by {
      assert loc[1..] != [];
    }
    assert Joined(loc) !in t.fields;
    LocateInField(t, Joined(loc));
    assert k in t.keys && [Name(k)] + loc[1..] == loc;
    PutFieldItself(t, k);
  }

  lemma PutFieldItself(t: Tree, key: string)
    requires t.Dict? && key in t.fields && key in t.keys
    ensures PutField(t, key, t.fields[key]) == t
  {
  }

  lemma SameItem(t: Tree, i: nat, loc: seq<Hop>)
    requires t.List? && i < |t.items| && loc != [] && loc[0] == Index(i)
    ensures Found(List(t.items[i := t.items[i]]), [Index(i)] + loc[1..]) == Found(t, loc)
  {
    assert t.items[i := t.items[i]] == t.items;
    assert [Index(i)] + loc[1..] == loc;
  }

  lemma ItemLeafIsLocated(t: Tree, loc: seq<Hop>)
    requires Tidy(t) && |loc| > 1 && loc[0].Index? && ValueAt(t, loc).Some?
    requires t.List? && loc[0].i < |t.items|
    requires Locate(t.items[loc[0].i], Joined(loc[1..]), false) == Some(Found(t.items[loc[0].i], loc[1..]))
    ensures Locate(t, Joined(loc), false) == Some(Found(t, loc))
  {
    hide Locate, Tidy, ValueAt, Joined, ListIndex, Digits;
    var i := loc[0].i;
    OneHop(t, loc);
    JoinedHead(loc);
    DigitsAreIndex(i, |t.items|);
    LocateInItem(t, Joined(loc), i);
    SameItem(t, i, loc);
  }

  /** _locate finds every leaf by the key flattening gives it, lists included, and changes nothing on the way. */
  lemma {:induction false} LeafIsLocated(t: Tree, loc: seq<Hop>)
    requires Tidy(t) && loc != [] && ValueAt(t, loc).Some? && ValueAt(t, loc).value.Leaf?
    ensures Locate(t, Joined(loc), false) == Some(Found(t, loc))
    decreases |loc|
  {
    OneHop(t, loc);
    if |loc| == 1 {
      LastHopIsLocated(t, loc);
    } else {
      match loc[0]
      case Name(k) =>
        LeafIsLocated(t.fields[k], loc[1..]);
        FieldLeafIsLocated(t, loc);
      case Index(i) =>
        LeafIsLocated(t.items[i], loc[1..]);
        ItemLeafIsLocated(t, loc);
    }
  }

  lemma LastHopIsLocated(t: Tree, loc: seq<Hop>)
    requires Tidy(t) && |loc| == 1 && ValueAt(t, loc).Some?
    ensures Locate(t, Joined(loc), false) == Some(Found(t, loc))
  {
    OneHop(t, loc);
    JoinedHead(loc);
    match loc[0]
    case Name(k) =>
      assert loc == [Name(k)];
    case Index(i) =>
      DigitsAreIndex(i, |t.items|);
      LocateInItem(t, Joined(loc), i);
      assert loc == [Index(i)];
  }

  // -- Flattening a leaf --------------------------------------------------------

  lemma KeyOneDown(prefix: string, loc: seq<Hop>)
    requires loc != [] && Written(loc[0]) != ""
    ensures KeyBelow(prefix, loc) == KeyBelow(Step(prefix, Written(loc[0])), loc[1..])
  {
  }

  lemma {:induction false} ItemIsListed(t: Tree, prefix: string, from: nat, i: nat, pair: Pair)
    requires t.List? && from <= i < |t.items| && pair in Leaves(t.items[i], Step(prefix, Digits(i)))
    ensures pair in ItemLeaves(t, prefix, from)
    decreases i - from
  {
    if from < i {
      ItemIsListed(t, prefix, from + 1, i, pair);
    }
  }

  /** Flattening gives every leaf under the key of the way to it, with the leaf's text. */
  lemma {:induction false} LeafIsFlattened(t: Tree, prefix: string, loc: seq<Hop>)
    requires Tidy(t) && ValueAt(t, loc).Some? && ValueAt(t, loc).value.Leaf?
    ensures Pair(KeyBelow(prefix, loc), Text(ValueAt(t, loc).value.value)) in Leaves(t, prefix)
    decreases |loc|
  {
    if loc != [] {
      var pair := Pair(KeyBelow(prefix, loc), Text(ValueAt(t, loc).value.value));
      match loc[0]
      case Name(k) =>
        KeyOneDown(prefix, loc);
        LeafIsFlattened(t.fields[k], Step(prefix, k), loc[1..]);
        var i :| 0 <= i < |t.keys| && t.keys[i] == k;
        FieldIsListed(t, prefix, 0, i, pair);
      case Index(i) =>
        NumberOfDigits(i);
        KeyOneDown(prefix, loc);
        LeafIsFlattened(t.items[i], Step(prefix, Digits(i)), loc[1..]);
        ItemIsListed(t, prefix, 0, i, pair);
    }
  }

  /** So a leaf's flat key is in the flat file, and there _locate finds the leaf again. */
  lemma FlatKeyFindsLeaf(t: Tree, loc: seq<Hop>)
    requires Tidy(t) && loc != [] && ValueAt(t, loc).Some? && ValueAt(t, loc).value.Leaf?
    ensures Joined(loc) in Flatten(t) && Locate(t, Joined(loc), false) == Some(Found(t, loc))
  {
    LeafIsFlattened(t, "", loc);
    LeafIsLocated(t, loc);
    FirstWinsAt(Leaves(t, ""), Joined(loc));
    var pair := Pair(Joined(loc), Text(ValueAt(t, loc).value.value));
    var i :| 0 <= i < |Leaves(t, "")| && Leaves(t, "")[i] == pair;
  }

  /** How leaves are written: nulls are empty, truth values lower-case words, texts themselves. */
  lemma LeavesAreWritten(key: string, b: bool, text: string)
    ensures Leaves(Leaf(NullValue), key) == [Pair(key, "")]
    ensures Leaves(Leaf(BoolValue(b)), key) == [Pair(key, if b then "true" else "false")]
    ensures Leaves(Leaf(TextValue(text)), key) == [Pair(key, text)]
  {
  }

  /** A file counts as a tree as soon as it is a list, or an object with an object or a list in it. */
  lemma NestedMeans(t: Tree, key: string)
    ensures t.List? ==> IsNested(t)
    ensures t.Dict? && key in t.fields && (t.fields[key].Dict? || t.fields[key].List?) ==> IsNested(t)
    ensures t.Dict? && (forall k :: k in t.fields ==> t.fields[k].Leaf?) ==> !IsNested(t)
  {
  }

  lemma LastOfRest(loc: seq<Hop>)
    requires |loc| > 1
    ensures loc[1..][|loc[1..]| - 1] == loc[|loc| - 1]
  {
  }

  /** A value renamed away leaves its object, however deep and below whatever lists; a list keeps its element. */
  lemma {:induction false} RenamedAway(t: Tree, loc: seq<Hop>)
    requires loc != [] && ValueAt(t, loc).Some?
    ensures loc[|loc| - 1].Name? ==> ValueAt(DeleteAt(t, loc), loc) == None
    ensures loc[|loc| - 1].Index? ==> DeleteAt(t, loc) == t
    decreases |loc|
  {
    if |loc| > 1 {
      LastOfRest(loc);
      match loc[0]
      case Name(k) => RenamedAway(t.fields[k], loc[1..]);
      case Index(i) => RenamedAway(t.items[i], loc[1..]);
    }
  }

  /** Text that leads into a list at no element of it. */
  ghost predicate LeadsNowhere(t: Tree, key: string, list: string, rest: string) {
    && t.Dict? && key == list + "." + rest && DotFree(list) && key !in t.fields
    && list in t.fields && t.fields[list].List? && ListIndex(Head(rest), |t.fields[list].items|) == None
  }

  lemma NowhereIsNotLocated(t: Tree, key: string, list: string, rest: string)
    requires LeadsNowhere(t, key, list, rest)
    ensures Locate(t, key, true) == None
  {
    HeadOf(list, rest);
    assert Locate(t.fields[list], rest, true) == None;
  }

  /** A value renamed to an element a list does not have is gone from the document, though flat_data has it. */
  lemma RenameIntoListIsLost(t: Tree, r: Rename, list: string, rest: string)
    requires LeadsNowhere(t, r.target, list, rest) && list != r.source
    requires r.source in t.fields && t.fields[r.source].Leaf?
    ensures RenameInTree(t, r) == RemoveField(t, r.source)
  {
    var moved := RemoveField(t, r.source);
    assert DeleteAt(t, [Name(r.source)]) == moved;
    assert Locate(t, r.source, false) == Some(Found(t, [Name(r.source)]));
    assert ValueAt(t, [Name(r.source)]) == Some(t.fields[r.source]);
    NowhereIsNotLocated(moved, r.target, list, rest);
    hide Locate, LeadsNowhere, ListIndex;
  }

  /** A flat value with such a key leaves the document as it is. */
  lemma EditIntoListIsLost(t: Tree, original: map<string, string>, key: string, value: string, list: string,
                           rest: string)
    requires LeadsNowhere(t, key, list, rest)
    ensures EditInTree(t, original, key, value) == t
  {
    NowhereIsNotLocated(t, key, list, rest);
  }
}
