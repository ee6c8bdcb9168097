/** The type-directed JSON transformer: an interpreter for a small type language with named
    references, ordered unions with backtracking, arrays, enums, and objects with known and
    additional properties. */
module JsonTypes {
  import opened Common

  /** JavaScript values as the transformer sees them. A missing property reads as Undefined. */
  datatype Value =
    | Undefined
    | Null
    | Boolean(b: bool)
    | Number(n: real)
    | Str(s: string)
    | Arr(items: seq<Value>)
    | Obj(fields: map<string, Value>)

  /** What `typeof` distinguishes among the primitive type literals. */
  datatype Kind = UndefinedKind | BooleanKind | NumberKind | StringKind

  datatype Prop = Prop(json: string, js: string, typ: Typ)

  /** Never is the literal `false`, which no value inhabits. */
  datatype Typ =
    | Any
    | NullType
    | Never
    | Primitive(kind: Kind)
    | Ref(name: string)
    | Union(members: seq<Typ>)
    | ArrayOf(element: Typ)
    | Enum(cases: seq<string>)
    | Object(props: seq<Prop>, additional: Typ)

  type TypeMap = map<string, Typ>

  /** The shape of the type map: every name stands for an object or an enum. */
  ghost predicate WellShaped(types: TypeMap) {
    forall name :: name in types ==> types[name].Object? || types[name].Enum?
  }

  /** A name that is not in the map resolves to the literal `undefined`. */
  function Resolve(types: TypeMap, name: string): Typ {
    if name in types then types[name] else Primitive(UndefinedKind)
  }

  function KindOf(v: Value): Option<Kind> {
    match v
    case Undefined => Some(UndefinedKind)
    case Boolean(_) => Some(BooleanKind)
    case Number(_) => Some(NumberKind)
    case Str(_) => Some(StringKind)
    case _ => None
  }

  // ---------------------------------------------------------------- property tables

  /** Cast reads json names and writes js names; uncast does the reverse. */
  datatype Direction = JsonToJs | JsToJson

  datatype Entry = Entry(source: string, target: string, typ: Typ)

  function EntryOf(dir: Direction, p: Prop): Entry {
    match dir
    case JsonToJs => Entry(p.json, p.js, p.typ)
    case JsToJson => Entry(p.js, p.json, p.typ)
  }

  /** Assigns a property: a repeated source name keeps its place and takes the new value. */
  function Assign(entries: seq<Entry>, e: Entry): seq<Entry> {
    if entries == [] then [e]
    else if entries[0].source == e.source then [e] + entries[1..]
    else [entries[0]] + Assign(entries[1..], e)
  }

  /** The property table that `jsonToJSProps` and `jsToJSONProps` build. */
  function Entries(dir: Direction, props: seq<Prop>): seq<Entry> {
    if props == [] then []
    else Assign(Entries(dir, props[..|props| - 1]), EntryOf(dir, props[|props| - 1]))
  }

  predicate IsSource(entries: seq<Entry>, key: string) {
    exists i :: 0 <= i < |entries| && entries[i].source == key
  }

  function Field(fields: map<string, Value>, key: string): Value {
    if key in fields then fields[key] else Undefined
  }

  // ---------------------------------------------------------------- the transformer

  /** None is a thrown error. */
  function Transform(types: TypeMap, dir: Direction, v: Value, t: Typ): Option<Value>
    requires WellShaped(types)
    decreases if v.Undefined? then 0 else 1, v, 1, t, if t.Union? then |t.members| + 1 else 0
  {
    match t
    case Any => Some(v)
    case NullType => if v.Null? then Some(v) else None
    case Never => None
    case Primitive(kind) => if KindOf(v) == Some(kind) then Some(v) else None
    case Union(_) => TransformUnion(types, dir, v, t, 0)
    case ArrayOf(element) =>
      if v.Arr? then
        match TransformItems(types, dir, v, element, 0)
        case None => None
        case Some(items) => Some(Arr(items))
      else None
    case Enum(cases) => TransformEnum(v, cases)
    case Object(props, additional) => TransformObject(types, dir, v, Entries(dir, props), additional)
    case Ref(name) =>
      match Resolve(types, name)
      case Object(props, additional) => TransformObject(types, dir, v, Entries(dir, props), additional)
      case Enum(cases) => TransformEnum(v, cases)
      case Primitive(kind) => if KindOf(v) == Some(kind) then Some(v) else None
  }

  function TransformEnum(v: Value, cases: seq<string>): Option<Value> {
    if v.Str? && v.s in cases then Some(v) else None
  }

  /** Tries the members from `i` on; the first that does not throw decides. */
  function TransformUnion(types: TypeMap, dir: Direction, v: Value, t: Typ, i: nat): Option<Value>
    requires WellShaped(types) && t.Union? && i <= |t.members|
    decreases if v.Undefined? then 0 else 1, v, 1, t, |t.members| - i
  {
    if i == |t.members| then None
    else
      var r := Transform(types, dir, v, t.members[i]);
      if r.Some? then r else TransformUnion(types, dir, v, t, i + 1)
  }

  /** The elements from `i` on, all of which must be valid. */
  function TransformItems(types: TypeMap, dir: Direction, v: Value, element: Typ, i: nat): Option<seq<Value>>
    requires WellShaped(types) && v.Arr? && i <= |v.items|
    decreases if v.Undefined? then 0 else 1, v, 0, |v.items| - i
  {
    if i == |v.items| then Some([])
    else
      match (Transform(types, dir, v.items[i], element), TransformItems(types, dir, v, element, i + 1))
      case (Some(head), Some(tail)) => Some([head] + tail)
      case _ => None
  }

  /** Known properties first, in table order; then the additional ones, which may overwrite. */
  function TransformObject(
      types: TypeMap, dir: Direction, v: Value, entries: seq<Entry>, additional: Typ): Option<Value>
    requires WellShaped(types)
    decreases if v.Undefined? then 0 else 1, v, 0, |entries| + 1
  {
    if !v.Obj? then None
    else
      match TransformKnown(types, dir, v, entries, |entries|)
      case None => None
      case Some(known) =>
        if exists key :: key in v.fields && !IsSource(entries, key)
             && Transform(types, dir, v.fields[key], additional).None?
        then None
        else Some(Obj(known + TransformExtras(types, dir, v, entries, additional, v.fields.Keys)))
  }

  /** The transformed additional properties among `keys`. */
  function TransformExtras(
      types: TypeMap, dir: Direction, v: Value, entries: seq<Entry>, additional: Typ, keys: set<string>)
    : map<string, Value>
    requires WellShaped(types) && v.Obj?
    decreases if v.Undefined? then 0 else 1, v, 0, 0
  {
    map key | key in keys && key in v.fields && !IsSource(entries, key)
                && Transform(types, dir, v.fields[key], additional).Some?
            :: Transform(types, dir, v.fields[key], additional).value
  }

  /** The result after the first `n` table entries. */
  function TransformKnown(
      types: TypeMap, dir: Direction, v: Value, entries: seq<Entry>, n: nat): Option<map<string, Value>>
    requires WellShaped(types) && v.Obj? && n <= |entries|
    decreases if v.Undefined? then 0 else 1, v, 0, n
  {
    if n == 0 then Some(map[])
    else
      match TransformKnown(types, dir, v, entries, n - 1)
      case None => None
      case Some(result) =>
        var e := entries[n - 1];
        match Transform(types, dir, Field(v.fields, e.source), e.typ)
        case None => None
        case Some(w) => Some(result[e.target := w])
  }

  function Cast(types: TypeMap, v: Value, t: Typ): Option<Value>
    requires WellShaped(types)
  {
    Transform(types, JsonToJs, v, t)
  }

  function Uncast(types: TypeMap, v: Value, t: Typ): Option<Value>
    requires WellShaped(types)
  {
    Transform(types, JsToJson, v, t)
  }

  // ---------------------------------------------------------------- the transformer as performed

  method BuildTable(dir: Direction, props: seq<Prop>) returns (entries: seq<Entry>)
    ensures entries == Entries(dir, props)
  {
    entries := [];
    for i := 0 to |props|
      invariant entries == Entries(dir, props[..i])
    {
      assert props[..i + 1][..i] == props[..i];
      entries := Assign(entries, EntryOf(dir, props[i]));
    }
    assert props[..|props|] == props;
  }

  /** `transform`, with its loops: over union members with a caught error, over table entries and
      additional keys filling the result, and over array elements. */
  method TransformValue(types: TypeMap, dir: Direction, v: Value, t: Typ) returns (r: Option<Value>)
    requires WellShaped(types)
    ensures r == Transform(types, dir, v, t)
    decreases if v.Undefined? then 0 else 1, v, 1, t
  {
    match t {
      case Any => return Some(v);
      case NullType => return if v.Null? then Some(v) else None;
      case Never => return None;
      case _ =>
    }
    var typ := if t.Ref? then Resolve(types, t.name) else t;
    match typ {
      case Primitive(kind) => r := if KindOf(v) == Some(kind) then Some(v) else None;
      case Enum(cases) => r := TransformEnum(v, cases);
      case Object(props, additional) =>
        var entries := BuildTable(dir, props);
        r := TransformObjectValue(types, dir, v, entries, additional);
      case Union(_) => r := TransformUnionValue(types, dir, v, t);
      case ArrayOf(element) =>
        if !v.Arr? {
          return None;
        }
        var items := TransformArrayItems(types, dir, v, element);
        r := if items.None? then None else Some(Arr(items.value));
    }
  }

  /** The loop of `transformUnion`, which catches the error of a member and tries the next. */
  method TransformUnionValue(types: TypeMap, dir: Direction, v: Value, t: Typ) returns (r: Option<Value>)
    requires WellShaped(types) && t.Union?
    ensures r == TransformUnion(types, dir, v, t, 0)
    decreases if v.Undefined? then 0 else 1, v, 1, t, 0
  {
    hide Transform, WellShaped;
    var i := 0;
    while i < |t.members|
      invariant 0 <= i <= |t.members|
      invariant TransformUnion(types, dir, v, t, 0) == TransformUnion(types, dir, v, t, i)
    {
      r := TransformValue(types, dir, v, t.members[i]);
      if r.Some? {
        return;
      }
      i := i + 1;
    }
    r := None;
  }

  /** The loop of `transformArray`, which gives up at the first invalid element. */
  method TransformArrayItems(types: TypeMap, dir: Direction, v: Value, element: Typ) returns (r: Option<seq<Value>>)
    requires WellShaped(types) && v.Arr?
    ensures r == TransformItems(types, dir, v, element, 0)
    decreases if v.Undefined? then 0 else 1, v, 0, 0
  {
    hide Transform, WellShaped, Prefixed;
    var items: seq<Value> := [];
    PrefixedByNothing(TransformItems(types, dir, v, element, 0));
    var i := 0;
    while i < |v.items|
      invariant 0 <= i <= |v.items|
      invariant TransformItems(types, dir, v, element, 0)
             == Prefixed(items, TransformItems(types, dir, v, element, i))
    {
      var item := TransformValue(types, dir, v.items[i], element);
      var rest := TransformItems(types, dir, v, element, i + 1);
      PrefixedStep(items, item, rest);
      if item.None? {
        return None;
      }
      items := items + [item.value];
      i := i + 1;
    }
    PrefixedToEnd(items);
    r := Some(items);
  }

  function Prefixed(items: seq<Value>, rest: Option<seq<Value>>): Option<seq<Value>> {
    match rest
    case None => None
    case Some(tail) => Some(items + tail)
  }

  lemma PrefixedByNothing(rest: Option<seq<Value>>)
    ensures Prefixed([], rest) == rest
  {
    if rest.Some? {
      assert [] + rest.value == rest.value;
    }
  }

  lemma PrefixedToEnd(items: seq<Value>)
    ensures Prefixed(items, Some([])) == Some(items)
  {
    assert items + [] == items;
  }

  /** One more element moves from the rest to the prefix, or makes the whole fail. */
  lemma PrefixedStep(items: seq<Value>, item: Option<Value>, rest: Option<seq<Value>>)
    ensures var unfolded := match (item, rest) case (Some(head), Some(tail)) => Some([head] + tail) case _ => None;
            Prefixed(items, unfolded) == if item.None? then None else Prefixed(items + [item.value], rest)
  {
    if item.Some? && rest.Some? {
      assert items + [item.value] + rest.value == items + ([item.value] + rest.value);
    }
  }

  method TransformObjectValue(
      types: TypeMap, dir: Direction, v: Value, entries: seq<Entry>, additional: Typ) returns (r: Option<Value>)
    requires WellShaped(types)
    ensures r == TransformObject(types, dir, v, entries, additional)
    decreases if v.Undefined? then 0 else 1, v, 0, 1
  {
    hide Transform, TransformExtras, IsSource, WellShaped;
    if !v.Obj? {
      return None;
    }
    var result: map<string, Value> := map[];
    var n := 0;
    while n < |entries|
      invariant 0 <= n <= |entries|
      invariant TransformKnown(types, dir, v, entries, n) == Some(result)
    {
      var field := TransformValue(types, dir, Field(v.fields, entries[n].source), entries[n].typ);
      if field.None? {
        KnownFailsForGood(types, dir, v, entries, n + 1, |entries|);
        return None;
      }
      result := result[entries[n].target := field.value];
      n := n + 1;
    }
    r := TransformAdditional(types, dir, v, entries, additional, result);
  }

  /** The second loop of `transformObject`: the keys outside the table, in any order. */
  method TransformAdditional(
      types: TypeMap, dir: Direction, v: Value, entries: seq<Entry>, additional: Typ, known: map<string, Value>)
    returns (r: Option<Value>)
    requires WellShaped(types) && v.Obj?
    ensures r.None? <==> exists key :: key in v.fields && !IsSource(entries, key)
                                    && Transform(types, dir, v.fields[key], additional).None?
    ensures r.Some? ==> r.value == Obj(known + TransformExtras(types, dir, v, entries, additional, v.fields.Keys))
    decreases if v.Undefined? then 0 else 1, v, 0, 0
  {
    hide Transform, TransformExtras, IsSource, WellShaped;
    var result := known;
    var remaining := v.fields.Keys;
    ghost var done: set<string> := {};
    NoExtras(types, dir, v, entries, additional);
    while remaining != {}
      invariant remaining <= v.fields.Keys
      invariant done == v.fields.Keys - remaining
      invariant forall key :: key in done && !IsSource(entries, key) ==>
        Transform(types, dir, v.fields[key], additional).Some?
      invariant result == known + TransformExtras(types, dir, v, entries, additional, done)
      decreases remaining
    {
      var key :| key in remaining;
      OneMoreExtra(types, dir, v, entries, additional, done, key);
      if !IsSource(entries, key) {
        var field := TransformValue(types, dir, v.fields[key], additional);
        if field.None? {
          return None;
        }
        result := result[key := field.value];
      }
      remaining := remaining - {key};
      done := done + {key};
    }
    assert done == v.fields.Keys;
    r := Some(Obj(result));
  }

  lemma NoExtras(types: TypeMap, dir: Direction, v: Value, entries: seq<Entry>, additional: Typ)
    requires WellShaped(types) && v.Obj?
    ensures TransformExtras(types, dir, v, entries, additional, {}) == map[]
  {
  }

  lemma OneMoreExtra(
      types: TypeMap, dir: Direction, v: Value, entries: seq<Entry>, additional: Typ, keys: set<string>, key: string)
    requires WellShaped(types) && v.Obj? && key in v.fields && key !in keys
    ensures var before := TransformExtras(types, dir, v, entries, additional, keys);
            TransformExtras(types, dir, v, entries, additional, keys + {key})
              == if IsSource(entries, key) || Transform(types, dir, v.fields[key], additional).None? then before
                 else before[key := Transform(types, dir, v.fields[key], additional).value]
  {
    hide Transform, IsSource, WellShaped;
  }

  lemma {:induction false} KnownFailsForGood(
      types: TypeMap, dir: Direction, v: Value, entries: seq<Entry>, n: nat, m: nat)
    requires WellShaped(types) && v.Obj? && n <= m <= |entries|
    requires TransformKnown(types, dir, v, entries, n).None?
    ensures TransformKnown(types, dir, v, entries, m).None?
    decreases m
  {
    if n == m {
    } else {
      KnownFailsForGood(types, dir, v, entries, n, m - 1);
    }
  }
}
