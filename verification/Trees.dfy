/** Parsed files: JSON-like trees whose objects remember the order of their keys. */
module Trees {
  import opened Options
  import opened Paths

  datatype Scalar = NullValue | BoolValue(b: bool) | TextValue(text: string)

  /** How a leaf is written as a string. Numbers come as their text. */
  function Text(s: Scalar): string {
    match s
    case NullValue => ""
    case BoolValue(b) => if b then "true" else "false"
    case TextValue(text) => text
  }

  datatype Tree =
    | Leaf(value: Scalar)
    | Dict(keys: seq<string>, fields: map<string, Tree>)
    | List(items: seq<Tree>)

  const EMPTY := Dict([], map[])

  /** `{...}[key] = child`: a new key comes last. */
  function PutField(t: Tree, key: string, child: Tree): Tree
    requires t.Dict?
  {
    Dict(if key in t.fields then t.keys else t.keys + [key], t.fields[key := child])
  }

  ghost predicate Distinct(keys: seq<string>) {
    forall i, j :: 0 <= i < j < |keys| ==> keys[i] != keys[j]
  }

  // -- Leaves in document order -------------------------------------------------

  /** A leaf's flattened key and its text. */
  datatype Pair = Pair(key: string, text: string)

  function Step(prefix: string, key: string): string {
    if prefix == "" then key else prefix + "." + key
  }

  function Digits(n: nat): string {
    if n < 10 then ["0123456789"[n]] else Digits(n / 10) + ["0123456789"[n % 10]]
  }

  /** The leaves below *prefix*, in the order they stand in the file. */
  function Leaves(t: Tree, prefix: string): seq<Pair>
    decreases t, 1, 0
  {
    match t
    case Leaf(value) => [Pair(prefix, Text(value))]
    case Dict(_, _) => FieldLeaves(t, prefix, 0)
    case List(_) => ItemLeaves(t, prefix, 0)
  }

  /** The leaves of an object's fields from the i-th key on. */
  function FieldLeaves(t: Tree, prefix: string, i: nat): seq<Pair>
    requires t.Dict?
    decreases t, 0, |t.keys| - i
  {
    if i >= |t.keys| then []
    else
      (if t.keys[i] in t.fields then Leaves(t.fields[t.keys[i]], Step(prefix, t.keys[i])) else [])
      + FieldLeaves(t, prefix, i + 1)
  }

  function ItemLeaves(t: Tree, prefix: string, i: nat): seq<Pair>
    requires t.List?
    decreases t, 0, |t.items| - i
  {
    if i >= |t.items| then []
    else Leaves(t.items[i], Step(prefix, Digits(i))) + ItemLeaves(t, prefix, i + 1)
  }

  /** Among leaves with the same key, the first in document order gives the value. */
  function FirstWins(leaves: seq<Pair>): map<string, string> {
    if leaves == [] then map[] else FirstWins(leaves[1..])[leaves[0].key := leaves[0].text]
  }

  /** The flat form of a tree. */
  function Flatten(t: Tree): map<string, string> {
    FirstWins(Leaves(t, ""))
  }

  // -- Looking up and editing by path -------------------------------------------

  function At(t: Tree, p: Path): Option<Tree>
    decreases |p|
  {
    if p == [] then Some(t)
    else if t.Dict? && p[0] in t.fields then At(t.fields[p[0]], p[1..])
    else None
  }

  function LeafAt(t: Tree, p: Path): Option<Scalar> {
    match At(t, p)
    case Some(Leaf(value)) => Some(value)
    case _ => None
  }
}
