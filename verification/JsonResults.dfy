/** What the transformer returns: a meaning of types that fixes the result, property by property. */
module JsonResults {
  import opened Common
  import opened JsonTypes
  import opened JsonGuarantees
  import opened JsonRoundTrip

  // ---------------------------------------------------------------- the order of the table

  /** The names that the properties are read under, in the order of their first mention. */
  function FirstNames(dir: Direction, props: seq<Prop>): seq<string> {
    if props == [] then []
    else
      var names, name := FirstNames(dir, props[..|props| - 1]), ReadName(dir, props[|props| - 1]);
      if name in names then names else names + [name]
  }

  function Sources(entries: seq<Entry>): (names: seq<string>)
    ensures |names| == |entries|
    ensures forall k :: 0 <= k < |entries| ==> names[k] == entries[k].source
  {
    seq(|entries|, k requires 0 <= k < |entries| => entries[k].source)
  }

  lemma {:induction false} AssignKeepsPlaces(entries: seq<Entry>, e: Entry)
    ensures Sources(Assign(entries, e))
         == if e.source in Sources(entries) then Sources(entries) else Sources(entries) + [e.source]
    decreases |entries|
  {
    if entries == [] {
    } else if entries[0].source == e.source {
      assert Sources(entries)[0] == e.source;
    } else {
      AssignKeepsPlaces(entries[1..], e);
      assert Sources(entries) == [entries[0].source] + Sources(entries[1..]);
      var rest := Assign(entries[1..], e);
      assert Sources([entries[0]] + rest) == [entries[0].source] + Sources(rest);
    }
  }

  /** The table lists each name at the place of its first mention, whatever is assigned later. */
  lemma {:induction false} TableKeepsFirstPlaces(dir: Direction, props: seq<Prop>)
    ensures Sources(Entries(dir, props)) == FirstNames(dir, props)
    decreases |props|
  {
    if props == [] {
    } else {
      var n := |props| - 1;
      TableKeepsFirstPlaces(dir, props[..n]);
      AssignKeepsPlaces(Entries(dir, props[..n]), EntryOf(dir, props[n]));
    }
  }

  // ---------------------------------------------------------------- the meaning of results

  predicate ComesBefore(names: seq<string>, a: string, b: string) {
    exists x, y :: 0 <= x < y < |names| && names[x] == a && names[y] == b
  }

  /** The key is in the value, but no property is read under it. */
  ghost predicate IsAdditional(dir: Direction, v: Value, props: seq<Prop>, key: string)
    requires v.Obj?
  {
    key in v.fields && !Names(dir, props, key)
  }

  /** The i-th property decides what is written under its name: it is the last one read under its
      own name, no additional key overwrites it, and the others that write there come before it. */
  ghost predicate Prevails(dir: Direction, v: Value, props: seq<Prop>, i: nat)
    requires v.Obj?
  {
    && IsLast(dir, props, i)
    && !IsAdditional(dir, v, props, WriteName(dir, props[i]))
    && forall j: nat :: IsLast(dir, props, j) && j != i && WriteName(dir, props[j]) == WriteName(dir, props[i]) ==>
         ComesBefore(FirstNames(dir, props), ReadName(dir, props[j]), ReadName(dir, props[i]))
  }

  /** What the value holds for the i-th property: a missing property reads as undefined. */
  function Held(dir: Direction, v: Value, p: Prop): Value
    requires v.Obj?
  {
    if ReadName(dir, p) in v.fields then v.fields[ReadName(dir, p)] else Undefined
  }

  /** The value has the type, and `w` is its image: the same for values without parts; that of the
      first member that the value inhabits, for a union; element by element, for an array. */
  ghost predicate Yields(types: TypeMap, dir: Direction, v: Value, t: Typ, w: Value)
    requires WellShaped(types)
    decreases if v.Undefined? then 0 else 1, v, 1, t
  {
    match t
    case Union(members) =>
      exists i :: 0 <= i < |members| && Yields(types, dir, v, members[i], w)
        && forall j :: 0 <= j < i ==> !Inhabits(types, dir, v, members[j])
    case ArrayOf(element) =>
      && v.Arr? && w.Arr? && |w.items| == |v.items|
      && forall i :: 0 <= i < |v.items| ==> Yields(types, dir, v.items[i], element, w.items[i])
    case Object(props, additional) => YieldsObject(types, dir, v, props, additional, w)
    case Ref(name) =>
      if name in types && types[name].Object?
      then YieldsObject(types, dir, v, types[name].props, types[name].additional, w)
      else Inhabits(types, dir, v, t) && w == v
    case _ => Inhabits(types, dir, v, t) && w == v
  }

  /** Every named property is written under its other name, additional keys under their own, and no
      other key is written. */
  ghost predicate YieldsObject(types: TypeMap, dir: Direction, v: Value, props: seq<Prop>, additional: Typ, w: Value)
    requires WellShaped(types)
    decreases if v.Undefined? then 0 else 1, v, 0
  {
    && v.Obj? && w.Obj?
    && (forall i: nat :: IsLast(dir, props, i) ==> WriteName(dir, props[i]) in w.fields)
    && (forall i: nat :: Prevails(dir, v, props, i) ==>
          && WriteName(dir, props[i]) in w.fields
          && Yields(types, dir, Held(dir, v, props[i]), props[i].typ, w.fields[WriteName(dir, props[i])]))
    && (forall key :: IsAdditional(dir, v, props, key) ==>
          key in w.fields && Yields(types, dir, v.fields[key], additional, w.fields[key]))
    && (forall key :: key in w.fields ==>
          || IsAdditional(dir, v, props, key)
          || exists i: nat :: IsLast(dir, props, i) && WriteName(dir, props[i]) == key)
  }

  // ---------------------------------------------------------------- the transformer yields it

  /** No entry between `k` and `n` writes to the target of entry `k`. */
  ghost predicate IsLastTarget(entries: seq<Entry>, k: nat, n: nat) {
    k < n <= |entries| && forall m :: k < m < n ==> entries[m].target != entries[k].target
  }

  lemma {:induction false} KnownTargets(
      types: TypeMap, dir: Direction, v: Value, entries: seq<Entry>, n: nat, result: map<string, Value>)
    requires WellShaped(types) && v.Obj? && n <= |entries|
    requires TransformKnown(types, dir, v, entries, n) == Some(result)
    ensures forall k :: 0 <= k < n ==> entries[k].target in result
    ensures forall key :: key in result ==> exists k :: 0 <= k < n && entries[k].target == key
    decreases n
  {
    hide Transform, Field, WellShaped;
    if n == 0 {
    } else {
      KnownTargets(types, dir, v, entries, n - 1, TransformKnown(types, dir, v, entries, n - 1).value);
    }
  }

  /** The last entry with a target decides what the known properties hold there. */
  lemma {:induction false} LastTargetDecides(
      types: TypeMap, dir: Direction, v: Value, entries: seq<Entry>, n: nat, result: map<string, Value>, k: nat)
    requires WellShaped(types) && v.Obj? && n <= |entries| && IsLastTarget(entries, k, n)
    requires TransformKnown(types, dir, v, entries, n) == Some(result)
    ensures entries[k].target in result
    ensures Transform(types, dir, Field(v.fields, entries[k].source), entries[k].typ) == Some(result[entries[k].target])
    decreases n
  {
    hide Transform, Field, WellShaped;
    if k == n - 1 {
    } else {
      LastTargetDecides(types, dir, v, entries, n - 1, TransformKnown(types, dir, v, entries, n - 1).value, k);
      assert entries[n - 1].target != entries[k].target;
    }
  }

  /** A prevailing property has the last entry with its target. */
  lemma PrevailingEntry(dir: Direction, v: Value, props: seq<Prop>, i: nat) returns (k: nat)
    requires v.Obj? && Prevails(dir, v, props, i)
    ensures var entries := Entries(dir, props);
            k < |entries| && entries[k] == EntryOf(dir, props[i]) && IsLastTarget(entries, k, |entries|)
  {
    var entries := Entries(dir, props);
    TableHoldsLastProps(dir, props);
    TableKeepsFirstPlaces(dir, props);
    assert IsLastEntry(dir, props, EntryOf(dir, props[i]));
    assert EntryOf(dir, props[i]) in entries;
    k :| 0 <= k < |entries| && entries[k] == EntryOf(dir, props[i]);
    hide Entries, FirstNames;
    forall m | k < m < |entries| ensures entries[m].target != entries[k].target {
      assert entries[m] in entries;
      var j: nat :| j < |props| && IsLast(dir, props, j) && EntryOf(dir, props[j]) == entries[m];
      assert entries[m].source != entries[k].source;
    }
  }

  lemma {:induction false} TransformYields(types: TypeMap, dir: Direction, v: Value, t: Typ, w: Value)
    requires WellShaped(types)
    requires Transform(types, dir, v, t) == Some(w)
    ensures Yields(types, dir, v, t, w)
    decreases if v.Undefined? then 0 else 1, v, 1, t
  {
    hide TransformUnion, TransformItems, TransformObject, InhabitsObject, YieldsObject, Entries;
    match t
    case Any | NullType | Never | Primitive(_) | Enum(_) =>
    case Union(_) => UnionYields(types, dir, v, t, w);
    case ArrayOf(element) => ItemsYield(types, dir, v, element, w);
    case Object(props, additional) => ObjectYields(types, dir, v, props, additional, w);
    case Ref(name) =>
      if name in types && types[name].Object? {
        ObjectYields(types, dir, v, types[name].props, types[name].additional, w);
      }
  }

  lemma {:induction false} UnionYields(types: TypeMap, dir: Direction, v: Value, t: Typ, w: Value)
    requires WellShaped(types) && t.Union?
    requires TransformUnion(types, dir, v, t, 0) == Some(w)
    ensures exists i :: 0 <= i < |t.members| && Yields(types, dir, v, t.members[i], w)
              && forall j :: 0 <= j < i ==> !Inhabits(types, dir, v, t.members[j])
    decreases if v.Undefined? then 0 else 1, v, 1, t, 0
  {
    hide Transform, TransformUnion, Inhabits, Yields, WellShaped;
    UnionIsFirstMatch(types, dir, v, t, 0);
    var k :| 0 <= k < |t.members| && Transform(types, dir, v, t.members[k]) == Some(w)
          && forall j :: 0 <= j < k ==> Transform(types, dir, v, t.members[j]).None?;
    TransformYields(types, dir, v, t.members[k], w);
    forall j | 0 <= j < k ensures !Inhabits(types, dir, v, t.members[j]) {
      AcceptsIffInhabits(types, dir, v, t.members[j]);
    }
  }

  lemma {:induction false} ItemsYield(types: TypeMap, dir: Direction, v: Value, element: Typ, w: Value)
    requires WellShaped(types) && v.Arr? && w.Arr?
    requires TransformItems(types, dir, v, element, 0) == Some(w.items)
    ensures |w.items| == |v.items|
    ensures forall i :: 0 <= i < |v.items| ==> Yields(types, dir, v.items[i], element, w.items[i])
    decreases if v.Undefined? then 0 else 1, v, 0, 0
  {
    hide Transform, TransformItems, Yields, WellShaped;
    ItemsSucceedIff(types, dir, v, element, 0);
    forall i | 0 <= i < |v.items| ensures Yields(types, dir, v.items[i], element, w.items[i]) {
      TransformYields(types, dir, v.items[i], element, w.items[i]);
    }
  }

  lemma {:induction false} ObjectYields(
      types: TypeMap, dir: Direction, v: Value, props: seq<Prop>, additional: Typ, w: Value)
    requires WellShaped(types)
    requires TransformObject(types, dir, v, Entries(dir, props), additional) == Some(w)
    ensures YieldsObject(types, dir, v, props, additional, w)
    decreases if v.Undefined? then 0 else 1, v, 0
  {
    hide Transform, Yields, Entries, WellShaped, TransformExtras, TransformKnown;
    assert v.Obj?;
    var known, extras := ObjectKeys(types, dir, v, props, additional, w);
    hide TransformObject, IsLast, Names, IsAdditional;
    forall key | IsAdditional(dir, v, props, key)
      ensures key in w.fields && Yields(types, dir, v.fields[key], additional, w.fields[key])
    {
      assert key in extras;
      assert key in v.fields by { AdditionalIsHeld(dir, v, props, key); }
      TransformYields(types, dir, v.fields[key], additional, w.fields[key]);
    }
    forall i: nat | Prevails(dir, v, props, i)
      ensures WriteName(dir, props[i]) in w.fields
      ensures Yields(types, dir, Held(dir, v, props[i]), props[i].typ, w.fields[WriteName(dir, props[i])])
    {
      PropIsWritten(types, dir, v, props, i, known);
      TransformYields(types, dir, Held(dir, v, props[i]), props[i].typ, w.fields[WriteName(dir, props[i])]);
    }
  }

  lemma AdditionalIsHeld(dir: Direction, v: Value, props: seq<Prop>, key: string)
    requires v.Obj? && IsAdditional(dir, v, props, key)
    ensures key in v.fields
  {
  }

  /** A prevailing property is transformed and written under its name. */
  lemma PropIsWritten(
      types: TypeMap, dir: Direction, v: Value, props: seq<Prop>, i: nat, known: map<string, Value>)
    requires WellShaped(types) && v.Obj? && Prevails(dir, v, props, i)
    requires TransformKnown(types, dir, v, Entries(dir, props), |Entries(dir, props)|) == Some(known)
    ensures WriteName(dir, props[i]) in known
    ensures Transform(types, dir, Held(dir, v, props[i]), props[i].typ) == Some(known[WriteName(dir, props[i])])
  {
    hide Transform, WellShaped, TransformKnown;
    var k := PrevailingEntry(dir, v, props, i);
    hide Entries, Prevails, IsLast;
    LastTargetDecides(types, dir, v, Entries(dir, props), |Entries(dir, props)|, known, k);
  }

  /** The two parts of a transformed object and the keys they hold; additional keys come last. */
  lemma ObjectKeys(types: TypeMap, dir: Direction, v: Value, props: seq<Prop>, additional: Typ, w: Value)
    returns (known: map<string, Value>, extras: map<string, Value>)
    requires WellShaped(types) && v.Obj?
    requires TransformObject(types, dir, v, Entries(dir, props), additional) == Some(w)
    ensures w == Obj(known + extras)
    ensures TransformKnown(types, dir, v, Entries(dir, props), |Entries(dir, props)|) == Some(known)
    ensures forall key :: key in extras <==> IsAdditional(dir, v, props, key)
    ensures forall key :: key in extras ==>
      key in v.fields && Transform(types, dir, v.fields[key], additional) == Some(extras[key])
    ensures forall i: nat :: IsLast(dir, props, i) ==> WriteName(dir, props[i]) in known
    ensures forall key :: key in known ==> exists i: nat :: IsLast(dir, props, i) && WriteName(dir, props[i]) == key
  {
    hide Transform, Entries, WellShaped, TransformExtras, TransformKnown, IsSource, Names, TransformObject;
    var entries := Entries(dir, props);
    known := ObjectParts(types, dir, v, entries, additional);
    extras := TransformExtras(types, dir, v, entries, additional, v.fields.Keys);
    ExtrasByKey(types, dir, v, entries, additional);
    forall key ensures IsSource(entries, key) <==> Names(dir, props, key) {
      SourcesAreNames(dir, props, key);
    }
    KnownKeys(types, dir, v, props, known);
    hide IsLast;
  }

  lemma KnownKeys(types: TypeMap, dir: Direction, v: Value, props: seq<Prop>, known: map<string, Value>)
    requires WellShaped(types) && v.Obj?
    requires TransformKnown(types, dir, v, Entries(dir, props), |Entries(dir, props)|) == Some(known)
    ensures forall i: nat :: IsLast(dir, props, i) ==> WriteName(dir, props[i]) in known
    ensures forall key :: key in known ==> exists i: nat :: IsLast(dir, props, i) && WriteName(dir, props[i]) == key
  {
    hide Transform, Entries, WellShaped, TransformKnown;
    var entries := Entries(dir, props);
    KnownTargets(types, dir, v, entries, |entries|, known);
    TableHoldsLastProps(dir, props);
    forall i: nat | IsLast(dir, props, i) ensures WriteName(dir, props[i]) in known {
      assert IsLastEntry(dir, props, EntryOf(dir, props[i]));
      assert EntryOf(dir, props[i]) in entries;
    }
    forall key | key in known ensures exists i: nat :: IsLast(dir, props, i) && WriteName(dir, props[i]) == key {
      var k :| 0 <= k < |entries| && entries[k].target == key;
      assert entries[k] in entries;
    }
  }

  /** What casting and uncasting return, for every value they accept: casting reads json names and
      writes js names, uncasting the reverse. */
  lemma CastYields(types: TypeMap, v: Value, t: Typ)
    requires WellShaped(types)
    ensures Cast(types, v, t).Some? <==> Inhabits(types, JsonToJs, v, t)
    ensures Cast(types, v, t).Some? ==> Yields(types, JsonToJs, v, t, Cast(types, v, t).value)
    ensures Uncast(types, v, t).Some? <==> Inhabits(types, JsToJson, v, t)
    ensures Uncast(types, v, t).Some? ==> Yields(types, JsToJson, v, t, Uncast(types, v, t).value)
  {
    AcceptsIffInhabits(types, JsonToJs, v, t);
    AcceptsIffInhabits(types, JsToJson, v, t);
    if Cast(types, v, t).Some? {
      TransformYields(types, JsonToJs, v, t, Cast(types, v, t).value);
    }
    if Uncast(types, v, t).Some? {
      TransformYields(types, JsToJson, v, t, Uncast(types, v, t).value);
    }
  }
}
