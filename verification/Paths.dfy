/** Dotted keys as paths: `key.split(".")`, `".".join(parts)`, `key.partition(".")`. */
module Paths {

  type Path = seq<string>

  predicate DotFree(s: string) {
    '.' !in s
  }

  /** The part before the first dot; all of the key when it has none. */
  function Head(key: string): (h: string)
    ensures DotFree(h) && h <= key
    ensures HasDot(key) ==> |h| < |key| && key[|h|] == '.'
    ensures !HasDot(key) ==> h == key
  {
    if key == "" || key[0] == '.' then ""
    else [key[0]] + Head(key[1..])
  }

  predicate HasDot(key: string) {
    '.' in key
  }

  /** The part after the first dot. */
  function Tail(key: string): string
    requires HasDot(key)
  {
    key[|Head(key)| + 1..]
  }

  lemma HeadTail(key: string)
    requires HasDot(key)
    ensures key == Head(key) + "." + Tail(key)
  {
  }

  lemma {:induction false} HeadOf(head: string, tail: string)
    requires DotFree(head)
    ensures HasDot(head + "." + tail) && Head(head + "." + tail) == head && Tail(head + "." + tail) == tail
  {
    var key := head + "." + tail;
    assert key[|head|] == '.';
    if head == "" {
      assert Head(key) == "";
    } else {
      assert key[0] == head[0] && head[0] in head;
      assert key[1..] == head[1..] + "." + tail;
      HeadOf(head[1..], tail);
      assert Head(key) == head;
    }
  }

  function Split(key: string): (p: Path)
    ensures p != [] && forall i :: 0 <= i < |p| ==> DotFree(p[i])
    decreases |key|
  {
    if HasDot(key) then [Head(key)] + Split(Tail(key)) else [key]
  }

  function Join(p: Path): string {
    if p == [] then "" else if |p| == 1 then p[0] else p[0] + "." + Join(p[1..])
  }

  lemma {:induction false} JoinSplit(key: string)
    ensures Join(Split(key)) == key
    decreases |key|
  {
    if HasDot(key) {
      JoinSplit(Tail(key));
      HeadTail(key);
      assert Split(key)[1..] == Split(Tail(key));
    }
  }

  ghost predicate DotFreePath(p: Path) {
    p != [] && forall i :: 0 <= i < |p| ==> DotFree(p[i])
  }

  lemma {:induction false} SplitJoin(p: Path)
    requires DotFreePath(p)
    ensures Split(Join(p)) == p
    decreases |p|
  {
    if |p| > 1 {
      HeadOf(p[0], Join(p[1..]));
      SplitJoin(p[1..]);
    }
  }

  lemma SplitInjective(a: string, b: string)
    requires Split(a) == Split(b)
    ensures a == b
  {
    JoinSplit(a);
    JoinSplit(b);
  }

  /** a leads to b and stops before it. */
  predicate ProperPrefix(a: Path, b: Path) {
    a < b
  }

  predicate Comparable(a: Path, b: Path) {
    a <= b || b <= a
  }

  /** No key of the set is the parent of another. */
  ghost predicate PrefixFree(keys: set<string>) {
    forall a, b :: a in keys && b in keys ==> !ProperPrefix(Split(a), Split(b))
  }

  /** A key that flattening can produce: anything but one that starts with a dot. */
  predicate GoodKey(key: string) {
    !("." <= key)
  }

  predicate GoodPath(p: Path) {
    |p| == 1 || (|p| > 1 && p[0] != "")
  }

  lemma GoodKeyGoodPath(key: string)
    ensures GoodKey(key) <==> GoodPath(Split(key))
  {
    assert "." <= key <==> key != "" && key[0] == '.';
    if HasDot(key) {
      assert |Split(key)| == 1 + |Split(Tail(key))|;
      assert Split(key)[0] == Head(key);
    }
  }
}
