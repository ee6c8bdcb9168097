/** Casting and uncasting round-trip when json and js names coincide, as in every entry of the
    generated type map. */
module JsonRoundTrip {
  import opened Common
  import opened JsonTypes
  import opened JsonGuarantees

  /** Every property in the type has one name. */
  ghost predicate SameNames(t: Typ)
    decreases t
  {
    match t
    case Union(members) => forall i :: 0 <= i < |members| ==> SameNames(members[i])
    case ArrayOf(element) => SameNames(element)
    case Object(props, additional) =>
      && SameNames(additional)
      && forall i :: 0 <= i < |props| ==> props[i].json == props[i].js && SameNames(props[i].typ)
    case _ => true
  }

  ghost predicate SameNamesMap(types: TypeMap) {
    WellShaped(types) && forall name :: name in types ==> SameNames(types[name])
  }

  // ---------------------------------------------------------------- tables with one name

  ghost predicate PlainEntry(e: Entry) {
    e.source == e.target && SameNames(e.typ)
  }

  ghost predicate PlainTable(entries: seq<Entry>) {
    DistinctSources(entries) && forall i :: 0 <= i < |entries| ==> PlainEntry(entries[i])
  }

  lemma {:induction false} TablesArePlain(dir: Direction, props: seq<Prop>)
    requires forall i :: 0 <= i < |props| ==> props[i].json == props[i].js && SameNames(props[i].typ)
    ensures PlainTable(Entries(dir, props))
  {
    var entries := Entries(dir, props);
    TableHoldsLastProps(dir, props);
    forall k | 0 <= k < |entries| ensures PlainEntry(entries[k]) {
      assert entries[k] in entries;
      var i: nat :| i < |props| && IsLast(dir, props, i) && EntryOf(dir, props[i]) == entries[k];
    }
  }

  lemma {:induction false} TablesAgree(dir: Direction, dir': Direction, props: seq<Prop>)
    requires forall i :: 0 <= i < |props| ==> props[i].json == props[i].js
    ensures Entries(dir, props) == Entries(dir', props)
    decreases |props|
  {
    if props == [] {
    } else {
      TablesAgree(dir, dir', props[..|props| - 1]);
    }
  }

  /** The transformed table properties, key by key. */
  lemma {:induction false} KnownResult(
      types: TypeMap, dir: Direction, v: Value, entries: seq<Entry>, n: nat, result: map<string, Value>)
    requires WellShaped(types) && v.Obj? && n <= |entries| && PlainTable(entries)
    requires TransformKnown(types, dir, v, entries, n) == Some(result)
    ensures forall i :: 0 <= i < n ==>
      && entries[i].source in result
      && Transform(types, dir, Field(v.fields, entries[i].source), entries[i].typ) == Some(result[entries[i].source])
    ensures forall key :: key in result ==> exists i :: 0 <= i < n && entries[i].source == key
    decreases n
  {
    hide Transform, Field, SameNames, WellShaped;
    if n == 0 {
    } else {
      KnownResult(types, dir, v, entries, n - 1, TransformKnown(types, dir, v, entries, n - 1).value);
    }
  }

  /** What it means, key by key, that an object was transformed into `w`. */
  ghost predicate ObjectMapsTo(
      types: TypeMap, dir: Direction, v: Value, entries: seq<Entry>, additional: Typ, w: Value)
    requires WellShaped(types) && v.Obj?
  {
    && w.Obj?
    && (forall i :: 0 <= i < |entries| ==>
          && entries[i].source in w.fields
          && Transform(types, dir, Field(v.fields, entries[i].source), entries[i].typ)
               == Some(w.fields[entries[i].source]))
    && (forall key :: key in v.fields && !IsSource(entries, key) ==>
          key in w.fields && Transform(types, dir, v.fields[key], additional) == Some(w.fields[key]))
    && (forall key :: key in w.fields ==> key in v.fields || IsSource(entries, key))
  }

  /** The transformed additional properties, key by key. */
  lemma ExtrasByKey(types: TypeMap, dir: Direction, v: Value, entries: seq<Entry>, additional: Typ)
    requires WellShaped(types) && v.Obj?
    ensures var extras := TransformExtras(types, dir, v, entries, additional, v.fields.Keys);
            forall key ::
              (key in extras <==>
                 key in v.fields && !IsSource(entries, key) && Transform(types, dir, v.fields[key], additional).Some?)
              && (key in extras ==> Transform(types, dir, v.fields[key], additional) == Some(extras[key]))
  {
    hide Transform, WellShaped, IsSource;
  }

  lemma ObjectParts(types: TypeMap, dir: Direction, v: Value, entries: seq<Entry>, additional: Typ)
    returns (known: map<string, Value>)
    requires WellShaped(types) && v.Obj? && TransformObject(types, dir, v, entries, additional).Some?
    ensures TransformKnown(types, dir, v, entries, |entries|) == Some(known)
    ensures TransformObject(types, dir, v, entries, additional)
         == Some(Obj(known + TransformExtras(types, dir, v, entries, additional, v.fields.Keys)))
    ensures forall key :: key in v.fields && !IsSource(entries, key) ==>
      Transform(types, dir, v.fields[key], additional).Some?
  {
    hide Transform, WellShaped, IsSource, TransformExtras, TransformKnown;
    known := TransformKnown(types, dir, v, entries, |entries|).value;
  }

  lemma ObjectResult(types: TypeMap, dir: Direction, v: Value, entries: seq<Entry>, additional: Typ, w: Value)
    requires WellShaped(types) && v.Obj? && PlainTable(entries)
    requires TransformObject(types, dir, v, entries, additional) == Some(w)
    ensures ObjectMapsTo(types, dir, v, entries, additional, w)
  {
    hide Transform, TransformObject, TransformKnown, TransformExtras, Field, PlainTable, WellShaped;
    var known := ObjectParts(types, dir, v, entries, additional);
    KnownResult(types, dir, v, entries, |entries|, known);
    ExtrasByKey(types, dir, v, entries, additional);
    forall i | 0 <= i < |entries| ensures IsSource(entries, entries[i].source) {
    }
    assert forall key :: key in known ==> IsSource(entries, key);
    hide IsSource;
  }

  /** The table properties of an object are left alone. */
  ghost predicate TableFixed(types: TypeMap, dir: Direction, w: Value, entries: seq<Entry>)
    requires WellShaped(types) && w.Obj?
  {
    forall i :: 0 <= i < |entries| ==>
      entries[i].source in w.fields
      && Transform(types, dir, w.fields[entries[i].source], entries[i].typ) == Some(w.fields[entries[i].source])
  }

  ghost predicate ExtrasFixed(types: TypeMap, dir: Direction, w: Value, entries: seq<Entry>, additional: Typ)
    requires WellShaped(types) && w.Obj?
  {
    forall key :: key in w.fields && !IsSource(entries, key) ==>
      Transform(types, dir, w.fields[key], additional) == Some(w.fields[key])
  }

  lemma {:induction false} KnownReproduces(
      types: TypeMap, dir: Direction, w: Value, entries: seq<Entry>, n: nat)
    requires WellShaped(types) && w.Obj? && n <= |entries| && PlainTable(entries)
    requires TableFixed(types, dir, w, entries)
    ensures TransformKnown(types, dir, w, entries, n).Some?
    decreases n
  {
    hide Transform, SameNames, WellShaped;
    if n == 0 {
    } else {
      KnownReproduces(types, dir, w, entries, n - 1);
    }
  }

  lemma FixedTableIsKnown(
      types: TypeMap, dir: Direction, w: Value, entries: seq<Entry>, known: map<string, Value>)
    requires WellShaped(types) && w.Obj? && PlainTable(entries) && TableFixed(types, dir, w, entries)
    requires TransformKnown(types, dir, w, entries, |entries|) == Some(known)
    ensures forall key :: key in known ==> key in w.fields && known[key] == w.fields[key]
    ensures forall key :: IsSource(entries, key) ==> key in known
  {
    KnownResult(types, dir, w, entries, |entries|, known);
    hide Transform, TransformKnown, PlainTable, WellShaped;
  }

  lemma FixedExtras(types: TypeMap, dir: Direction, w: Value, entries: seq<Entry>, additional: Typ)
    requires WellShaped(types) && w.Obj? && ExtrasFixed(types, dir, w, entries, additional)
    ensures var extras := TransformExtras(types, dir, w, entries, additional, w.fields.Keys);
            && (forall key :: key in extras ==> key in w.fields && extras[key] == w.fields[key])
            && (forall key :: key in w.fields && !IsSource(entries, key) ==> key in extras)
  {
    ExtrasByKey(types, dir, w, entries, additional);
    hide Transform, TransformExtras, WellShaped, IsSource;
  }

  lemma MergeIs(known: map<string, Value>, extras: map<string, Value>, fields: map<string, Value>)
    requires forall key :: key in known ==> key in fields && known[key] == fields[key]
    requires forall key :: key in extras ==> key in fields && extras[key] == fields[key]
    requires forall key :: key in fields ==> key in known || key in extras
    ensures known + extras == fields
  {
  }

  /** An object whose every property is left alone is left alone. */
  lemma ObjectReproduces(types: TypeMap, dir: Direction, w: Value, entries: seq<Entry>, additional: Typ)
    requires WellShaped(types) && w.Obj? && PlainTable(entries)
    requires TableFixed(types, dir, w, entries) && ExtrasFixed(types, dir, w, entries, additional)
    ensures TransformObject(types, dir, w, entries, additional) == Some(w)
  {
    KnownReproduces(types, dir, w, entries, |entries|);
    ObjectSucceeds(types, dir, w, entries, additional);
    var known := ObjectParts(types, dir, w, entries, additional);
    FixedTableIsKnown(types, dir, w, entries, known);
    FixedExtras(types, dir, w, entries, additional);
    hide Transform, TransformObject, TransformKnown, TransformExtras, PlainTable, WellShaped, TableFixed, ExtrasFixed, IsSource;
    MergeIs(known, TransformExtras(types, dir, w, entries, additional, w.fields.Keys), w.fields);
  }

  lemma ObjectSucceeds(types: TypeMap, dir: Direction, w: Value, entries: seq<Entry>, additional: Typ)
    requires WellShaped(types) && w.Obj? && TransformKnown(types, dir, w, entries, |entries|).Some?
    requires forall key :: key in w.fields && !IsSource(entries, key) ==>
      Transform(types, dir, w.fields[key], additional).Some?
    ensures TransformObject(types, dir, w, entries, additional).Some?
  {
    hide Transform, WellShaped, IsSource, TransformExtras, TransformKnown;
  }

  // ---------------------------------------------------------------- padding

  /** `w` is `v` with undefined-valued properties added, at any depth. */
  ghost predicate Padded(v: Value, w: Value)
    decreases v
  {
    match v
    case Arr(items) =>
      w.Arr? && |w.items| == |items| && forall i :: 0 <= i < |items| ==> Padded(items[i], w.items[i])
    case Obj(fields) =>
      && w.Obj?
      && (forall key :: key in fields ==> key in w.fields && Padded(fields[key], w.fields[key]))
      && (forall key :: key in w.fields && key !in fields ==> w.fields[key] == Undefined)
    case _ => w == v
  }

  /** The transformer only ever adds undefined-valued properties. */
  lemma {:induction false} TransformPads(types: TypeMap, dir: Direction, v: Value, t: Typ, w: Value)
    requires SameNamesMap(types) && SameNames(t)
    requires Transform(types, dir, v, t) == Some(w)
    ensures Padded(v, w)
    decreases if v.Undefined? then 0 else 1, v, 1, t
  {
    hide TransformUnion, TransformItems, TransformObject, Entries;
    match t
    case Any => PaddedReflexive(v);
    case NullType | Never | Primitive(_) | Enum(_) =>
    case Union(members) =>
      UnionIsFirstMatch(types, dir, v, t, 0);
      var k :| 0 <= k < |members| && Transform(types, dir, v, members[k]) == Some(w);
      TransformPads(types, dir, v, members[k], w);
    case ArrayOf(element) =>
      ItemsSucceedIff(types, dir, v, element, 0);
      forall i | 0 <= i < |v.items| ensures Padded(v.items[i], w.items[i]) {
        TransformPads(types, dir, v.items[i], element, w.items[i]);
      }
    case Object(props, additional) => ObjectPads(types, dir, v, props, additional, w);
    case Ref(name) =>
      if name in types && types[name].Object? {
        ObjectPads(types, dir, v, types[name].props, types[name].additional, w);
      }
  }

  lemma {:induction false} ObjectPads(
      types: TypeMap, dir: Direction, v: Value, props: seq<Prop>, additional: Typ, w: Value)
    requires SameNamesMap(types) && SameNames(Object(props, additional))
    requires TransformObject(types, dir, v, Entries(dir, props), additional) == Some(w)
    ensures Padded(v, w)
    decreases if v.Undefined? then 0 else 1, v, 0
  {
    hide Transform, Entries, TransformKnown, TransformExtras;
    var entries := Entries(dir, props);
    TablesArePlain(dir, props);
    ObjectResult(types, dir, v, entries, additional, w);
    hide TransformObject;
    forall key | key in w.fields
      ensures if key in v.fields then Padded(v.fields[key], w.fields[key]) else w.fields[key] == Undefined
    {
      if IsSource(entries, key) {
        var i :| 0 <= i < |entries| && entries[i].source == key;
        TransformPads(types, dir, Field(v.fields, key), entries[i].typ, w.fields[key]);
      } else {
        TransformPads(types, dir, v.fields[key], additional, w.fields[key]);
      }
    }
  }

  lemma {:induction false} PaddedReflexive(v: Value)
    ensures Padded(v, v)
    decreases v
  {
    match v
    case Arr(items) =>
      forall i | 0 <= i < |items| ensures Padded(items[i], items[i]) {
        PaddedReflexive(items[i]);
      }
    case Obj(fields) =>
      forall key | key in fields ensures Padded(fields[key], fields[key]) {
        PaddedReflexive(fields[key]);
      }
    case _ =>
  }

  /** Monotonicity: adding undefined properties never makes a type accept a value it rejected. */
  lemma {:induction false} PaddingGainsNothing(
      types: TypeMap, dir: Direction, dir': Direction, v: Value, w: Value, t: Typ)
    requires SameNamesMap(types) && SameNames(t)
    requires Padded(v, w) && Inhabits(types, dir', w, t)
    ensures Inhabits(types, dir, v, t)
    decreases if v.Undefined? then 0 else 1, v, 1, t
  {
    match t
    case Any | NullType | Never | Primitive(_) | Enum(_) =>
    case Union(members) =>
      var i :| 0 <= i < |members| && Inhabits(types, dir', w, members[i]);
      PaddingGainsNothing(types, dir, dir', v, w, members[i]);
    case ArrayOf(element) =>
      forall i | 0 <= i < |w.items| ensures Inhabits(types, dir, v.items[i], element) {
        PaddingGainsNothing(types, dir, dir', v.items[i], w.items[i], element);
      }
    case Object(props, additional) => PaddedObjectGainsNothing(types, dir, dir', v, w, props, additional);
    case Ref(name) =>
      if name in types && types[name].Object? {
        PaddedObjectGainsNothing(types, dir, dir', v, w, types[name].props, types[name].additional);
      }
  }

  lemma {:induction false} PaddedObjectGainsNothing(
      types: TypeMap, dir: Direction, dir': Direction, v: Value, w: Value, props: seq<Prop>, additional: Typ)
    requires SameNamesMap(types) && SameNames(Object(props, additional))
    requires Padded(v, w) && InhabitsObject(types, dir', w, props, additional)
    ensures InhabitsObject(types, dir, v, props, additional)
    decreases if v.Undefined? then 0 else 1, v, 0
  {
    hide Inhabits;
    forall i: nat | IsLast(dir, props, i)
      ensures Inhabits(types, dir, Field(v.fields, ReadName(dir, props[i])), props[i].typ)
    {
      var key := ReadName(dir, props[i]);
      assert IsLast(dir', props, i) && ReadName(dir', props[i]) == key;
      assert Padded(Field(v.fields, key), Field(w.fields, key));
      PaddingGainsNothing(types, dir, dir', Field(v.fields, key), Field(w.fields, key), props[i].typ);
    }
    forall key | key in v.fields && !Names(dir, props, key) ensures Inhabits(types, dir, v.fields[key], additional) {
      assert !Names(dir', props, key);
      PaddingGainsNothing(types, dir, dir', v.fields[key], w.fields[key], additional);
    }
  }

  // ---------------------------------------------------------------- idempotence

  /** What one direction returns, either direction accepts unchanged. For unions this needs that no
      earlier member, having rejected the value, accepts the padded result. */
  lemma {:induction false} TransformIsIdempotent(
      types: TypeMap, dir: Direction, dir': Direction, v: Value, t: Typ, w: Value)
    requires SameNamesMap(types) && SameNames(t)
    requires Transform(types, dir, v, t) == Some(w)
    ensures Transform(types, dir', w, t) == Some(w)
    decreases if v.Undefined? then 0 else 1, v, 1, t
  {
    hide TransformUnion, TransformItems, TransformObject, Entries, Padded;
    match t
    case Any | NullType | Never | Primitive(_) | Enum(_) =>
    case Union(members) => UnionIsIdempotent(types, dir, dir', v, t, w);
    case ArrayOf(element) =>
      ItemsSucceedIff(types, dir, v, element, 0);
      forall i | 0 <= i < |v.items| ensures Transform(types, dir', w.items[i], element) == Some(w.items[i]) {
        TransformIsIdempotent(types, dir, dir', v.items[i], element, w.items[i]);
      }
      ItemsSucceedIff(types, dir', w, element, 0);
      assert TransformItems(types, dir', w, element, 0).value == w.items;
    case Object(props, additional) => ObjectIsIdempotent(types, dir, dir', v, props, additional, w);
    case Ref(name) =>
      if name in types && types[name].Object? {
        ObjectIsIdempotent(types, dir, dir', v, types[name].props, types[name].additional, w);
      }
  }

  lemma {:induction false} UnionIsIdempotent(
      types: TypeMap, dir: Direction, dir': Direction, v: Value, t: Typ, w: Value)
    requires SameNamesMap(types) && SameNames(t) && t.Union?
    requires Transform(types, dir, v, t) == Some(w)
    ensures Transform(types, dir', w, t) == Some(w)
    decreases if v.Undefined? then 0 else 1, v, 1, t, 0
  {
    hide TransformUnion, TransformItems, TransformObject, Entries, Padded, Inhabits;
    TransformPads(types, dir, v, t, w);
    UnionIsFirstMatch(types, dir, v, t, 0);
    var k :| 0 <= k < |t.members| && Transform(types, dir, v, t.members[k]) == Some(w)
          && forall j :: 0 <= j < k ==> Transform(types, dir, v, t.members[j]).None?;
    TransformIsIdempotent(types, dir, dir', v, t.members[k], w);
    forall j | 0 <= j < k ensures Transform(types, dir', w, t.members[j]).None? {
      AcceptsIffInhabits(types, dir, v, t.members[j]);
      AcceptsIffInhabits(types, dir', w, t.members[j]);
      if Inhabits(types, dir', w, t.members[j]) {
        PaddingGainsNothing(types, dir, dir', v, w, t.members[j]);
      }
    }
    FirstMatchDecides(types, dir', w, t, 0, k);
  }

  lemma {:induction false} FirstMatchDecides(types: TypeMap, dir: Direction, v: Value, t: Typ, i: nat, k: nat)
    requires WellShaped(types) && t.Union? && i <= k < |t.members|
    requires Transform(types, dir, v, t.members[k]).Some?
    requires forall j :: i <= j < k ==> Transform(types, dir, v, t.members[j]).None?
    ensures TransformUnion(types, dir, v, t, i) == Transform(types, dir, v, t.members[k])
    decreases k - i
  {
    hide Transform;
    if i == k {
    } else {
      FirstMatchDecides(types, dir, v, t, i + 1, k);
    }
  }

  lemma {:induction false} ObjectIsIdempotent(
      types: TypeMap, dir: Direction, dir': Direction, v: Value, props: seq<Prop>, additional: Typ, w: Value)
    requires SameNamesMap(types) && SameNames(Object(props, additional))
    requires TransformObject(types, dir, v, Entries(dir, props), additional) == Some(w)
    ensures TransformObject(types, dir', w, Entries(dir', props), additional) == Some(w)
    decreases if v.Undefined? then 0 else 1, v, 0
  {
    var entries := Entries(dir, props);
    TablesArePlain(dir, props);
    TablesAgree(dir, dir', props);
    ObjectResult(types, dir, v, entries, additional, w);
    hide Transform, Entries, TransformObject;
    forall i | 0 <= i < |entries|
      ensures Transform(types, dir', w.fields[entries[i].source], entries[i].typ) == Some(w.fields[entries[i].source])
    {
      TransformIsIdempotent(
        types, dir, dir', Field(v.fields, entries[i].source), entries[i].typ, w.fields[entries[i].source]);
    }
    forall key | key in w.fields && !IsSource(entries, key)
      ensures Transform(types, dir', w.fields[key], additional) == Some(w.fields[key])
    {
      TransformIsIdempotent(types, dir, dir', v.fields[key], additional, w.fields[key]);
    }
    ObjectReproduces(types, dir', w, entries, additional);
  }

  // ---------------------------------------------------------------- the round trip

  /** A value that `JSON.parse` can produce: undefined nowhere. */
  ghost predicate IsJson(v: Value)
    decreases v
  {
    match v
    case Undefined => false
    case Arr(items) => forall i :: 0 <= i < |items| ==> IsJson(items[i])
    case Obj(fields) => forall key :: key in fields ==> IsJson(fields[key])
    case _ => true
  }

  /** What `JSON.stringify` writes: undefined properties vanish, undefined elements become null. */
  function Stringified(v: Value): Value
    decreases v
  {
    match v
    case Arr(items) =>
      Arr(seq(|items|, i requires 0 <= i < |items| => if items[i].Undefined? then Null else Stringified(items[i])))
    case Obj(fields) => Obj(map key | key in fields && !fields[key].Undefined? :: Stringified(fields[key]))
    case _ => v
  }

  /** Erasing the undefined properties of a padded JSON value gives the value back. */
  lemma {:induction false} ErasingUndoesPadding(v: Value, w: Value)
    requires IsJson(v) && Padded(v, w)
    ensures Stringified(w) == v && !w.Undefined?
    decreases v
  {
    match v
    case Arr(items) =>
      forall i | 0 <= i < |items| ensures Stringified(w.items[i]) == items[i] && !w.items[i].Undefined? {
        ErasingUndoesPadding(items[i], w.items[i]);
      }
      assert Stringified(w).items == items;
    case Obj(fields) =>
      forall key | key in fields ensures Stringified(w.fields[key]) == fields[key] && !w.fields[key].Undefined? {
        ErasingUndoesPadding(fields[key], w.fields[key]);
      }
      assert Stringified(w).fields == fields;
    case _ =>
  }

  /** The round trip: whatever JSON value cast accepts, uncast accepts the result and returns it
      unchanged, and what is then written is the JSON value that was read. */
  lemma CastRoundTrip(types: TypeMap, v: Value, t: Typ)
    requires SameNamesMap(types) && SameNames(t)
    requires Cast(types, v, t).Some?
    ensures var w := Cast(types, v, t).value;
            && Uncast(types, w, t) == Some(w)
            && Cast(types, w, t) == Some(w)
            && (IsJson(v) ==> Stringified(w) == v)
  {
    var w := Cast(types, v, t).value;
    TransformIsIdempotent(types, JsonToJs, JsToJson, v, t, w);
    TransformIsIdempotent(types, JsonToJs, JsonToJs, v, t, w);
    TransformPads(types, JsonToJs, v, t, w);
    if IsJson(v) {
      ErasingUndoesPadding(v, w);
    }
  }

  /** The one-name condition matters: if a property is renamed to a name that is also used by an
      additional property, cast overwrites the one with the other, and the round trip loses it. */
  lemma RenamingCanLoseData(types: TypeMap, x: Value, y: Value)
    requires WellShaped(types)
    ensures var t := Object([Prop("a", "b", Any)], Any);
            && Cast(types, Obj(map["a" := x, "b" := y]), t) == Some(Obj(map["b" := y]))
            && Uncast(types, Obj(map["b" := y]), t) == Some(Obj(map["a" := y]))
  {
    var props := [Prop("a", "b", Any)];
    var v, w := Obj(map["a" := x, "b" := y]), Obj(map["b" := y]);
    SinglePropTransforms(types, JsonToJs, v, props[0], Any, x);
    SinglePropTransforms(types, JsToJson, w, props[0], Any, y);
    var e, e' := EntryOf(JsonToJs, props[0]), EntryOf(JsToJson, props[0]);
    ExtrasByKey(types, JsonToJs, v, [e], Any);
    ExtrasByKey(types, JsToJson, w, [e'], Any);
    var extras, extras' := TransformExtras(types, JsonToJs, v, [e], Any, v.fields.Keys),
                           TransformExtras(types, JsToJson, w, [e'], Any, w.fields.Keys);
    assert "a" != "b";
    assert [e][0].source == "a" && [e'][0].source == "b";
    assert map["b" := x] + extras == w.fields;
    assert map["a" := y] + extras' == map["a" := y];
  }

  lemma SinglePropTransforms(types: TypeMap, dir: Direction, v: Value, prop: Prop, additional: Typ, x: Value)
    requires WellShaped(types) && v.Obj? && prop.typ == Any && additional == Any
    requires Field(v.fields, ReadName(dir, prop)) == x
    ensures var e := EntryOf(dir, prop);
            Transform(types, dir, v, Object([prop], additional))
              == Some(Obj(map[e.target := x] + TransformExtras(types, dir, v, [e], additional, v.fields.Keys)))
  {
    hide TransformExtras, WellShaped, IsSource;
    var e := EntryOf(dir, prop);
    assert [prop][..0] == [];
    assert Entries(dir, [prop]) == [e];
    assert TransformKnown(types, dir, v, [e], 1) == Some(map[e.target := x]) by {
      assert TransformKnown(types, dir, v, [e], 0) == Some(map[]);
      assert map[][e.target := x] == map[e.target := x];
    }
    ObjectSucceeds(types, dir, v, [e], additional);
    var known := ObjectParts(types, dir, v, [e], additional);
    hide TransformKnown, TransformObject, Entries;
  }
}
