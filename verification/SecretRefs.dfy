/**
 secret_refs.go: turns the string shorthand of every field the schema declares as a SecretRef into a
 SecretRef object, in a bundle decoded from JSON.
 */
module SecretRefs {
  import opened Options

  datatype Json =
    | Null
    | Bool(truth: bool)
    | Number(number: real)
    | Str(text: string)
    | Arr(items: seq<Json>)
    | Obj(fields: map<string, Json>)

  /** A field's kind; scalar covers lists and maps of scalars, which are never entered. */
  datatype Field = Scalar | MapOf(message: string) | ListOf(message: string) | One(message: string)

  datatype Message = Message(byName: map<string, Field>, byJsonName: map<string, Field>)

  /** Message descriptors by full name; they may refer to each other in cycles. */
  type Schema = map<string, Message>

  const SECRET: string := "vartrack.v1.SecretRef"

  function FieldOf(schema: Schema, message: string, key: string): Option<Field> {
    if message !in schema then None
    else if key in schema[message].byName then Some(schema[message].byName[key])
    else Get(schema[message].byJsonName, key)
  }

  function SecretOf(s: string): Json {
    Obj(map["value" := Str(s)])
  }

  // -- What the schema says about a position ------------------------------------

  /** A value of a message; the fields of one, looked at even for a SecretRef; a map or a list of messages. */
  datatype Slot =
    | Value(message: string)
    | Fields(message: string)
    | Entries(message: string)
    | Items(message: string)
    | Free

  datatype Part = Key(key: string) | Index(index: nat)

  function SlotOfField(field: Option<Field>): Slot {
    match field
    case Some(MapOf(m)) => Entries(m)
    case Some(ListOf(m)) => Items(m)
    case Some(One(m)) => Value(m)
    case _ => Free
  }

  function Inside(schema: Schema, slot: Slot, part: Part): Slot {
    match (slot, part)
    case (Value(m), Key(k)) => if m == SECRET then Free else SlotOfField(FieldOf(schema, m, k))
    case (Fields(m), Key(k)) => SlotOfField(FieldOf(schema, m, k))
    case (Entries(m), Key(k)) => Value(m)
    case (Items(m), Index(i)) => Value(m)
    case _ => Free
  }

  function SlotAt(schema: Schema, slot: Slot, path: seq<Part>): Slot
    decreases |path|
  {
    if path == [] then slot else SlotAt(schema, Inside(schema, slot, path[0]), path[1..])
  }

  function Child(v: Json, part: Part): Option<Json> {
    match (v, part)
    case (Obj(fields), Key(k)) => Get(fields, k)
    case (Arr(items), Index(i)) => if i < |items| then Some(items[i]) else None
    case _ => None
  }

  function At(v: Json, path: seq<Part>): Option<Json>
    decreases |path|
  {
    if path == [] then Some(v)
    else
      match Child(v, path[0])
      case None => None
      case Some(child) => At(child, path[1..])
  }

  /** Every SecretRef string wrapped; everything else rebuilt as it was. Ends because the value does. */
  function Wrap(schema: Schema, slot: Slot, v: Json): Json
    decreases v
  {
    match v
    case Str(s) => if slot == Value(SECRET) then SecretOf(s) else v
    case Obj(_) => Obj(map k | k in v.fields :: Wrap(schema, Inside(schema, slot, Key(k)), v.fields[k]))
    case Arr(_) => Arr(seq(|v.items|, i requires 0 <= i < |v.items| => Wrap(schema, Inside(schema, slot, Index(i)),
                                                                            v.items[i])))
    case _ => v
  }

  // -- The walk -----------------------------------------------------------------

  lemma {:induction false} WrapFree(schema: Schema, v: Json)
    ensures Wrap(schema, Free, v) == v
    decreases v
  {
    match v
    case Obj(fields) =>
      forall k | k in fields
        ensures Wrap(schema, Free, fields[k]) == fields[k]
      {
        WrapFree(schema, fields[k]);
      }
    case Arr(items) =>
      forall i | 0 <= i < |items|
        ensures Wrap(schema, Free, items[i]) == items[i]
      {
        WrapFree(schema, items[i]);
      }
    case _ =>
  }

  /** The walk enters no further than the schema says, so what it leaves alone must come out unchanged. */
  lemma LeftAlone(schema: Schema, slot: Slot, v: Json)
    requires match slot
             case Free => true
             case Value(m) => m == SECRET && !v.Str?
             case Fields(_) => !v.Obj?
             case Entries(_) => !v.Obj?
             case Items(_) => !v.Arr?
    ensures Wrap(schema, slot, v) == v
  {
    forall part | Child(v, part).Some?
      ensures Inside(schema, slot, part) == Free
    {
    }
    FreeInside(schema, slot, v);
  }

  lemma FreeInside(schema: Schema, slot: Slot, v: Json)
    requires forall part :: Child(v, part).Some? ==> Inside(schema, slot, part) == Free
    requires !(slot == Value(SECRET) && v.Str?)
    ensures Wrap(schema, slot, v) == v
  {
    hide Inside;
    if v.Obj? {
      forall k | k in v.fields
        ensures Wrap(schema, Inside(schema, slot, Key(k)), v.fields[k]) == v.fields[k]
      {
        assert Child(v, Key(k)).Some?;
        WrapFree(schema, v.fields[k]);
      }
    } else if v.Arr? {
      forall i | 0 <= i < |v.items|
        ensures Wrap(schema, Inside(schema, slot, Index(i)), v.items[i]) == v.items[i]
      {
        assert Child(v, Index(i)).Some?;
        WrapFree(schema, v.items[i]);
      }
    }
  }

  method WrapSecretRefs(v: Json, schema: Schema, message: string) returns (r: Json)
    ensures r == Wrap(schema, Fields(message), v)
    decreases v, 1
  {
    if !v.Obj? {
      LeftAlone(schema, Fields(message), v);
      return v;
    }
    var obj, todo := v.fields, v.fields.Keys;
    while todo != {}
      invariant todo <= v.fields.Keys && obj.Keys == v.fields.Keys
      invariant forall k :: k in obj ==>
                  obj[k] == if k in todo then v.fields[k]
                            else Wrap(schema, Inside(schema, Fields(message), Key(k)), v.fields[k])
      decreases todo
    {
      var key :| key in todo;
      var child := WrapField(v.fields[key], schema, FieldOf(schema, message, key));
      obj := obj[key := child];
      todo := todo - {key};
    }
    return Obj(obj);
  }

  method WrapField(child: Json, schema: Schema, field: Option<Field>) returns (r: Json)
    ensures r == Wrap(schema, SlotOfField(field), child)
    decreases child, 3
  {
    r := child;
    if field == None || field.value.Scalar? {
      WrapFree(schema, child);
      return;
    }
    match field.value
    case MapOf(m) =>
      if child.Obj? {
        r := WrapEntries(child, schema, m);
      } else {
        LeftAlone(schema, Entries(m), child);
      }
    case ListOf(m) =>
      if child.Arr? {
        r := WrapItems(child, schema, m);
      } else {
        LeftAlone(schema, Items(m), child);
      }
    case One(m) =>
      r := WrapValue(child, schema, m);
  }

  method WrapEntries(child: Json, schema: Schema, message: string) returns (r: Json)
    requires child.Obj?
    ensures r == Wrap(schema, Entries(message), child)
    decreases child, 2
  {
    var entries, todo := child.fields, child.fields.Keys;
    while todo != {}
      invariant todo <= child.fields.Keys && entries.Keys == child.fields.Keys
      invariant forall k :: k in entries ==>
                  entries[k] == if k in todo then child.fields[k]
                                else Wrap(schema, Inside(schema, Entries(message), Key(k)), child.fields[k])
      decreases todo
    {
      var key :| key in todo;
      var entry := WrapValue(child.fields[key], schema, message);
      entries := entries[key := entry];
      todo := todo - {key};
    }
    return Obj(entries);
  }

  method WrapItems(child: Json, schema: Schema, message: string) returns (r: Json)
    requires child.Arr?
    ensures r == Wrap(schema, Items(message), child)
    decreases child, 2
  {
    var items := child.items;
    for i := 0 to |items|
      invariant |items| == |child.items|
      invariant forall k :: 0 <= k < |items| ==> items[k] == if k >= i then child.items[k]
                                                             else Wrap(schema, Value(message), child.items[k])
    {
      var item := WrapValue(child.items[i], schema, message);
      items := items[i := item];
    }
    return Arr(items);
  }

  method WrapValue(v: Json, schema: Schema, message: string) returns (r: Json)
    ensures r == Wrap(schema, Value(message), v)
    decreases v, 2
  {
    if message == SECRET {
      if v.Str? {
        return SecretOf(v.text);
      }
      LeftAlone(schema, Value(message), v);
      return v;
    }
    SameFields(schema, message, v);
    r := WrapSecretRefs(v, schema, message);
  }

  lemma SameFields(schema: Schema, message: string, v: Json)
    requires message != SECRET
    ensures Wrap(schema, Value(message), v) == Wrap(schema, Fields(message), v)
  {
  }

  // -- What the walk achieves, position by position -----------------------------

  /** Same kind of value: equal when it has no parts, else with the same parts. */
  predicate SameShape(a: Json, b: Json) {
    match (a, b)
    case (Obj(f), Obj(g)) => f.Keys == g.Keys
    case (Arr(x), Arr(y)) => |x| == |y|
    case _ => a == b
  }

  lemma ChildAfter(schema: Schema, slot: Slot, v: Json, part: Part)
    ensures Child(v, part).Some?
       ==> Child(Wrap(schema, slot, v), part) == Some(Wrap(schema, Inside(schema, slot, part), Child(v, part).value))
    ensures Child(v, part) == None && Child(Wrap(schema, slot, v), part).Some?
       ==> slot == Value(SECRET) && v.Str? && part == Key("value")
           && Child(Wrap(schema, slot, v), part) == Some(v)
  {
  }

  /** What stands at a position afterwards is what stood there, wrapped as its type says. */
  lemma {:induction false} WrapAt(schema: Schema, slot: Slot, v: Json, path: seq<Part>)
    requires At(v, path).Some?
    ensures At(Wrap(schema, slot, v), path) == Some(Wrap(schema, SlotAt(schema, slot, path), At(v, path).value))
    decreases |path|
  {
    if path != [] {
      ChildAfter(schema, slot, v, path[0]);
      WrapAt(schema, Inside(schema, slot, path[0]), Child(v, path[0]).value, path[1..]);
    }
  }

  /** A string typed as a SecretRef becomes an object around it, and every other position keeps what it had. */
  lemma EveryPositionKept(schema: Schema, slot: Slot, v: Json, path: seq<Part>)
    requires At(v, path).Some?
    ensures var x, y := At(v, path).value, At(Wrap(schema, slot, v), path);
            && y.Some?
            && if SlotAt(schema, slot, path) == Value(SECRET) && x.Str? then y.value == SecretOf(x.text)
               else SameShape(x, y.value)
  {
    WrapAt(schema, slot, v, path);
  }

  /** A position is new only as the value of a string that was wrapped. */
  lemma {:induction false} NewPositionsAreWrapped(schema: Schema, slot: Slot, v: Json, path: seq<Part>)
    requires At(v, path) == None && At(Wrap(schema, slot, v), path).Some?
    ensures path != [] && path[|path| - 1] == Key("value")
    ensures var outer := path[..|path| - 1];
            && SlotAt(schema, slot, outer) == Value(SECRET)
            && At(v, outer).Some? && At(v, outer).value.Str?
            && At(Wrap(schema, slot, v), path) == At(v, outer)
    decreases |path|
  {
    ChildAfter(schema, slot, v, path[0]);
    if Child(v, path[0]) == None {
      assert Child(Wrap(schema, slot, v), path[0]) == Some(v);
      assert At(v, path[1..]).Some?;
    } else {
      NewPositionsAreWrapped(schema, Inside(schema, slot, path[0]), Child(v, path[0]).value, path[1..]);
      assert path[1..][..|path| - 2] == path[..|path| - 1][1..];
    }
  }

  /** Some position that the schema types as a SecretRef holds a bare string. */
  ghost predicate HasBareSecret(schema: Schema, slot: Slot, v: Json) {
    exists path :: SlotAt(schema, slot, path) == Value(SECRET) && At(v, path).Some? && At(v, path).value.Str?
  }

  /** At any depth: afterwards no SecretRef is a bare string. */
  lemma NoBareSecretLeft(schema: Schema, slot: Slot, v: Json)
    ensures !HasBareSecret(schema, slot, Wrap(schema, slot, v))
  {
    forall path | SlotAt(schema, slot, path) == Value(SECRET) && At(Wrap(schema, slot, v), path).Some?
      ensures !At(Wrap(schema, slot, v), path).value.Str?
    {
      if At(v, path).Some? {
        WrapAt(schema, slot, v, path);
      } else {
        NewPositionsAreWrapped(schema, slot, v, path);
        SlotStep(schema, slot, path);
      }
    }
  }

  lemma {:induction false} SlotStep(schema: Schema, slot: Slot, path: seq<Part>)
    requires path != []
    ensures SlotAt(schema, slot, path) == Inside(schema, SlotAt(schema, slot, path[..|path| - 1]), path[|path| - 1])
    decreases |path|
  {
    if |path| > 1 {
      SlotStep(schema, Inside(schema, slot, path[0]), path[1..]);
      assert path[1..][..|path| - 2] == path[..|path| - 1][1..];
    }
  }

  lemma BareSecretInside(schema: Schema, slot: Slot, v: Json, part: Part)
    requires Child(v, part).Some? && HasBareSecret(schema, Inside(schema, slot, part), Child(v, part).value)
    ensures HasBareSecret(schema, slot, v)
  {
    var path :| SlotAt(schema, Inside(schema, slot, part), path) == Value(SECRET)
                && At(Child(v, part).value, path).Some? && At(Child(v, part).value, path).value.Str?;
    assert ([part] + path)[1..] == path;
    assert SlotAt(schema, slot, [part] + path) == Value(SECRET);
  }

  /** The walk changes nothing exactly when no SecretRef was a bare string. */
  lemma {:induction false} UnchangedExactly(schema: Schema, slot: Slot, v: Json)
    ensures Wrap(schema, slot, v) == v <==> !HasBareSecret(schema, slot, v)
    decreases v
  {
    if Wrap(schema, slot, v) == v {
      NoBareSecretLeft(schema, slot, v);
    }
    if !HasBareSecret(schema, slot, v) {
      match v
      case Str(_) => assert SlotAt(schema, slot, []) == slot && At(v, []) == Some(v);
      case Obj(_) =>
        forall k | k in v.fields
          ensures Wrap(schema, Inside(schema, slot, Key(k)), v.fields[k]) == v.fields[k]
        {
          UnchangedExactly(schema, Inside(schema, slot, Key(k)), v.fields[k]);
          if HasBareSecret(schema, Inside(schema, slot, Key(k)), v.fields[k]) {
            BareSecretInside(schema, slot, v, Key(k));
          }
        }
      case Arr(_) =>
        forall i | 0 <= i < |v.items|
          ensures Wrap(schema, Inside(schema, slot, Index(i)), v.items[i]) == v.items[i]
        {
          UnchangedExactly(schema, Inside(schema, slot, Index(i)), v.items[i]);
          if HasBareSecret(schema, Inside(schema, slot, Index(i)), v.items[i]) {
            BareSecretInside(schema, slot, v, Index(i));
          }
        }
      case _ =>
    }
  }

  /** So a second walk changes nothing. */
  lemma WrapTwice(schema: Schema, slot: Slot, v: Json)
    ensures Wrap(schema, slot, Wrap(schema, slot, v)) == Wrap(schema, slot, v)
  {
    NoBareSecretLeft(schema, slot, v);
    UnchangedExactly(schema, slot, Wrap(schema, slot, v));
  }

  // -- In the schema's own words ------------------------------------------------

  /** The schema gives the field, under its name, or under its JSON name when no field has that name. */
  predicate Declares(schema: Schema, message: string, key: string, field: Field) {
    && message in schema
    && if key in schema[message].byName then schema[message].byName[key] == field
       else key in schema[message].byJsonName && schema[message].byJsonName[key] == field
  }

  /** A string in a SecretRef field, under either name, alone, in a list or in a map, becomes {"value": it}. */
  lemma SecretFieldIsWrapped(schema: Schema, message: string, v: Json, key: string, text: string)
    requires v.Obj? && key in v.fields
    ensures Declares(schema, message, key, One("vartrack.v1.SecretRef")) && v.fields[key] == Str(text) ==>
              Child(Wrap(schema, Fields(message), v), Key(key)) == Some(Obj(map["value" := Str(text)]))
    ensures Declares(schema, message, key, ListOf("vartrack.v1.SecretRef")) ==>
              forall i: nat :: At(v, [Key(key), Index(i)]) == Some(Str(text)) ==>
                At(Wrap(schema, Fields(message), v), [Key(key), Index(i)]) == Some(Obj(map["value" := Str(text)]))
    ensures Declares(schema, message, key, MapOf("vartrack.v1.SecretRef")) ==>
              forall k :: At(v, [Key(key), Key(k)]) == Some(Str(text)) ==>
                At(Wrap(schema, Fields(message), v), [Key(key), Key(k)]) == Some(Obj(map["value" := Str(text)]))
  {
    ChildAfter(schema, Fields(message), v, Key(key));
    forall part: Part | At(v, [Key(key), part]) == Some(Str(text))
      ensures At(Wrap(schema, Fields(message), v), [Key(key), part])
           == Some(Wrap(schema, Inside(schema, SlotOfField(FieldOf(schema, message, key)), part), Str(text)))
    {
      WrapAt(schema, Fields(message), v, [Key(key), part]);
      assert [Key(key), part][1..] == [part] && [part][1..] == [];
      assert SlotAt(schema, Fields(message), [Key(key), part])
          == SlotAt(schema, Inside(schema, Fields(message), Key(key)), [part]);
      assert SlotAt(schema, Inside(schema, Fields(message), Key(key)), [part])
          == Inside(schema, Inside(schema, Fields(message), Key(key)), part);
    }
  }

  /** What no message field names, and every scalar field, stays as it is. */
  lemma OtherFieldsStay(schema: Schema, message: string, v: Json, key: string)
    requires v.Obj? && key in v.fields
    requires Declares(schema, message, key, Scalar) || forall field :: !Declares(schema, message, key, field)
    ensures Child(Wrap(schema, Fields(message), v), Key(key)) == Some(v.fields[key])
  {
    ChildAfter(schema, Fields(message), v, Key(key));
    if message in schema && key in schema[message].byName {
      assert Declares(schema, message, key, schema[message].byName[key]);
    } else if message in schema && key in schema[message].byJsonName {
      assert Declares(schema, message, key, schema[message].byJsonName[key]);
    }
    WrapFree(schema, v.fields[key]);
  }
}
