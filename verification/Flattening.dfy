/** transformer._py_flatten: the stack loop that flattens a parsed file. */
module Flattening {
  import opened Options
  import opened Paths
  import opened Trees

  /** A node still to be flattened, below a key prefix. */
  datatype Todo = Todo(node: Tree, prefix: string)

  /** The leaves still on the stack, in document order: the top of the stack comes last. */
  function StackLeaves(stack: seq<Todo>): seq<Pair> {
    if stack == [] then []
    else Leaves(stack[0].node, stack[0].prefix) + StackLeaves(stack[1..])
  }

  lemma {:induction false} StackLeavesConcat(a: seq<Todo>, b: seq<Todo>)
    ensures StackLeaves(a + b) == StackLeaves(a) + StackLeaves(b)
  {
    if a == [] {
      assert a + b == b;
    } else {
      assert (a + b)[1..] == a[1..] + b;
      StackLeavesConcat(a[1..], b);
    }
  }

  /** The size of what is on the stack: it shrinks with every node taken off. */
  function Size(t: Tree): nat
    decreases t, 1, 0
  {
    match t
    case Leaf(_) => 1
    case Dict(keys, _) => 1 + FieldSizes(t, 0)
    case List(_) => 1 + ItemSizes(t, 0)
  }

  function FieldSizes(t: Tree, i: nat): nat
    requires t.Dict?
    decreases t, 0, |t.keys| - i
  {
    if i >= |t.keys| then 0
    else (if t.keys[i] in t.fields then Size(t.fields[t.keys[i]]) else 0) + FieldSizes(t, i + 1)
  }

  function ItemSizes(t: Tree, i: nat): nat
    requires t.List?
    decreases t, 0, |t.items| - i
  {
    if i >= |t.items| then 0 else Size(t.items[i]) + ItemSizes(t, i + 1)
  }

  function StackSize(stack: seq<Todo>): nat {
    if stack == [] then 0 else StackSize(stack[..|stack| - 1]) + Size(stack[|stack| - 1].node)
  }

  lemma StackPush(stack: seq<Todo>, next: Todo)
    ensures StackLeaves(stack + [next]) == StackLeaves(stack) + Leaves(next.node, next.prefix)
    ensures StackSize(stack + [next]) == StackSize(stack) + Size(next.node)
  {
    StackLeavesConcat(stack, [next]);
    assert StackLeaves([next]) == Leaves(next.node, next.prefix);
    assert (stack + [next])[..|stack|] == stack;
  }

  lemma Regroup<T>(a: seq<T>, b: seq<T>, c: seq<T>)
    ensures (a + b) + c == a + (b + c)
  {
  }

  /** Pushing an object's fields, in their order. */
  method PushFields(stack: seq<Todo>, t: Tree, prefix: string) returns (stack': seq<Todo>)
    requires t.Dict?
    ensures StackLeaves(stack') == StackLeaves(stack) + Leaves(t, prefix)
    ensures StackSize(stack') < StackSize(stack) + Size(t)
  {
    stack' := stack;
    for i := 0 to |t.keys|
      invariant StackLeaves(stack') + FieldLeaves(t, prefix, i) == StackLeaves(stack) + Leaves(t, prefix)
      invariant StackSize(stack') + FieldSizes(t, i) == StackSize(stack) + FieldSizes(t, 0)
    {
      if t.keys[i] in t.fields {
        var next := Todo(t.fields[t.keys[i]], Step(prefix, t.keys[i]));
        StackPush(stack', next);
        Regroup(StackLeaves(stack'), Leaves(next.node, next.prefix), FieldLeaves(t, prefix, i + 1));
        stack' := stack' + [next];
      } else {
        assert FieldLeaves(t, prefix, i) == FieldLeaves(t, prefix, i + 1);
      }
    }
  }

  /** Pushing a list's items under their indices. */
  method PushItems(stack: seq<Todo>, t: Tree, prefix: string) returns (stack': seq<Todo>)
    requires t.List?
    ensures StackLeaves(stack') == StackLeaves(stack) + Leaves(t, prefix)
    ensures StackSize(stack') < StackSize(stack) + Size(t)
  {
    stack' := stack;
    for i := 0 to |t.items|
      invariant StackLeaves(stack') + ItemLeaves(t, prefix, i) == StackLeaves(stack) + Leaves(t, prefix)
      invariant StackSize(stack') + ItemSizes(t, i) == StackSize(stack) + ItemSizes(t, 0)
    {
      var next := Todo(t.items[i], Step(prefix, Digits(i)));
      StackPush(stack', next);
      Regroup(StackLeaves(stack'), Leaves(next.node, next.prefix), ItemLeaves(t, prefix, i + 1));
      stack' := stack' + [next];
    }
  }

  lemma LeafOnTop(rest: seq<Todo>, value: Scalar, prefix: string)
    ensures var stack := rest + [Todo(Leaf(value), prefix)];
            StackLeaves(stack) == StackLeaves(rest) + [Pair(prefix, Text(value))] && StackSize(rest) < StackSize(stack)
  {
    StackPush(rest, Todo(Leaf(value), prefix));
  }

  lemma FirstIsNewest(p: Pair, seen: seq<Pair>)
    ensures FirstWins([p] + seen) == FirstWins(seen)[p.key := p.text]
  {
    assert ([p] + seen)[1..] == seen;
  }

  /** Takes the last node off until none is left; a key met again is overwritten, so the first in the file wins. */
  method PyFlatten(data: Tree, prefix: string) returns (result: map<string, string>)
    ensures result == FirstWins(Leaves(data, prefix))
  {
    result := map[];
    var stack := [Todo(data, prefix)];
    ghost var seen: seq<Pair> := [];
    StackPush([], Todo(data, prefix));
    assert stack == [] + [Todo(data, prefix)] && StackLeaves([]) == [];
    hide StackLeaves, Leaves, StackSize, Size, FirstWins;
    while stack != []
      invariant StackLeaves(stack) + seen == Leaves(data, prefix)
      invariant result == FirstWins(seen)
      decreases StackSize(stack)
    {
      var top, rest := stack[|stack| - 1], stack[..|stack| - 1];
      StackPush(rest, top);
      assert stack == rest + [top];
      match top.node {
        case Leaf(value) =>
          LeafOnTop(rest, value, top.prefix);
          FirstIsNewest(Pair(top.prefix, Text(value)), seen);
          Regroup(StackLeaves(rest), [Pair(top.prefix, Text(value))], seen);
          result := result[top.prefix := Text(value)];
          seen := [Pair(top.prefix, Text(value))] + seen;
          stack := rest;
        case Dict(_, _) =>
          stack := PushFields(rest, top.node, top.prefix);
        case List(_) =>
          stack := PushItems(rest, top.node, top.prefix);
      }
    }
    assert StackLeaves(stack) + seen == seen;
  }

  // -- What the flat form is ----------------------------------------------------

  /** Which leaf a key's value comes from: the first one with that key. */
  lemma {:induction false} FirstWinsAt(leaves: seq<Pair>, key: string)
    ensures key in FirstWins(leaves) <==> exists i :: 0 <= i < |leaves| && leaves[i].key == key
    ensures forall i :: 0 <= i < |leaves| && leaves[i].key == key
                        && (forall j :: 0 <= j < i ==> leaves[j].key != key) ==>
              FirstWins(leaves)[key] == leaves[i].text
  {
    if leaves != [] {
      FirstWinsAt(leaves[1..], key);
      assert forall i :: 0 < i < |leaves| ==> leaves[i] == leaves[1..][i - 1];
      if i :| 0 <= i < |leaves| && leaves[i].key == key && forall j :: 0 <= j < i ==> leaves[j].key != key {
        if i > 0 {
          assert leaves[1..][i - 1] == leaves[i];
          assert forall j :: 0 <= j < i - 1 ==> leaves[1..][j] == leaves[j + 1];
        }
      }
    }
  }
}
