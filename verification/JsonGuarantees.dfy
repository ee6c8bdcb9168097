/** What the transformer promises: it accepts exactly the values of a type, it is idempotent, and
    casting and uncasting a JSON value gives it back. */
module JsonGuarantees {
  import opened Common
  import opened JsonTypes

  // ---------------------------------------------------------------- the meaning of types

  /** The name that a property is read under: casting reads json names, uncasting js names. */
  function ReadName(dir: Direction, p: Prop): string {
    if dir == JsonToJs then p.json else p.js
  }

  /** The name that it is written under. */
  function WriteName(dir: Direction, p: Prop): string {
    if dir == JsonToJs then p.js else p.json
  }

  /** No later property of the list is read under the same name. */
  ghost predicate IsLast(dir: Direction, props: seq<Prop>, i: nat) {
    && i < |props|
    && forall j :: i < j < |props| ==> ReadName(dir, props[j]) != ReadName(dir, props[i])
  }

  ghost predicate Names(dir: Direction, props: seq<Prop>, key: string) {
    exists i :: 0 <= i < |props| && ReadName(dir, props[i]) == key
  }

  /** Declaratively: the value has the type. A union holds if any member does; an object has every
      named property in its last declared type, and all other keys in the additional type. */
  ghost predicate Inhabits(types: TypeMap, dir: Direction, v: Value, t: Typ)
    requires WellShaped(types)
    decreases if v.Undefined? then 0 else 1, v, 1, t
  {
    match t
    case Any => true
    case NullType => v == Null
    case Never => false
    case Primitive(UndefinedKind) => v.Undefined?
    case Primitive(BooleanKind) => v.Boolean?
    case Primitive(NumberKind) => v.Number?
    case Primitive(StringKind) => v.Str?
    case Union(members) => exists i :: 0 <= i < |members| && Inhabits(types, dir, v, members[i])
    case ArrayOf(element) => v.Arr? && forall i :: 0 <= i < |v.items| ==> Inhabits(types, dir, v.items[i], element)
    case Enum(cases) => v.Str? && v.s in cases
    case Object(props, additional) => InhabitsObject(types, dir, v, props, additional)
    case Ref(name) =>
      if name !in types then v == Undefined
      else match types[name]
        case Object(props, additional) => InhabitsObject(types, dir, v, props, additional)
        case Enum(cases) => v.Str? && v.s in cases
  }

  ghost predicate InhabitsObject(types: TypeMap, dir: Direction, v: Value, props: seq<Prop>, additional: Typ)
    requires WellShaped(types)
    decreases if v.Undefined? then 0 else 1, v, 0
  {
    && v.Obj?
    && (forall i: nat :: IsLast(dir, props, i) ==>
          var name := ReadName(dir, props[i]);
          Inhabits(types, dir, if name in v.fields then v.fields[name] else Undefined, props[i].typ))
    && (forall key :: key in v.fields && !Names(dir, props, key) ==>
          Inhabits(types, dir, v.fields[key], additional))
  }

  // ---------------------------------------------------------------- the table and the property list

  ghost predicate DistinctSources(entries: seq<Entry>) {
    forall i, j :: 0 <= i < j < |entries| ==> entries[i].source != entries[j].source
  }

  lemma {:induction false} AssignLookup(entries: seq<Entry>, e: Entry)
    requires DistinctSources(entries)
    ensures var r := Assign(entries, e);
            && DistinctSources(r)
            && (forall x :: x in r <==> x == e || (x in entries && x.source != e.source))
    decreases |entries|
  {
    if entries == [] {
    } else if entries[0].source == e.source {
      assert entries == [entries[0]] + entries[1..];
    } else {
      AssignLookup(entries[1..], e);
      assert entries == [entries[0]] + entries[1..];
      var r := Assign(entries, e);
      assert r[1..] == Assign(entries[1..], e);
      forall i, j | 0 <= i < j < |r| ensures r[i].source != r[j].source {
        assert r[j] in r[1..];
        if i > 0 {
          assert r[i] == r[1..][i - 1] && r[j] == r[1..][j - 1];
        }
      }
    }
  }

  /** The entry of some last property. */
  ghost predicate IsLastEntry(dir: Direction, props: seq<Prop>, e: Entry) {
    exists i: nat :: i < |props| && IsLast(dir, props, i) && EntryOf(dir, props[i]) == e
  }

  lemma LastInFront(dir: Direction, props: seq<Prop>, i: nat)
    requires i < |props| - 1
    ensures IsLast(dir, props, i)
       <==> IsLast(dir, props[..|props| - 1], i)
            && ReadName(dir, props[i]) != ReadName(dir, props[|props| - 1])
  {
    hide EntryOf, ReadName;
    var front := props[..|props| - 1];
    assert forall j :: 0 <= j < |front| ==> front[j] == props[j];
  }

  lemma LastEntriesGrow(dir: Direction, props: seq<Prop>, e: Entry)
    requires props != []
    ensures var last := EntryOf(dir, props[|props| - 1]);
            (e == last || (IsLastEntry(dir, props[..|props| - 1], e) && e.source != last.source))
              <==> IsLastEntry(dir, props, e)
  {
    var n := |props| - 1;
    var front, last := props[..n], EntryOf(dir, props[n]);
    assert IsLast(dir, props, n);
    hide IsLast;
    if IsLastEntry(dir, props, e) && e != last {
      var i: nat :| i < |props| && IsLast(dir, props, i) && EntryOf(dir, props[i]) == e;
      LastInFront(dir, props, i);
      assert front[i] == props[i];
    }
    if IsLastEntry(dir, front, e) && e.source != last.source {
      var i: nat :| i < n && IsLast(dir, front, i) && EntryOf(dir, front[i]) == e;
      assert front[i] == props[i];
      LastInFront(dir, props, i);
    }
  }

  /** The table holds exactly the last property of each source name. */
  lemma {:induction false} TableHoldsLastProps(dir: Direction, props: seq<Prop>)
    ensures DistinctSources(Entries(dir, props))
    ensures forall e :: e in Entries(dir, props) <==> IsLastEntry(dir, props, e)
    decreases |props|
  {
    if props == [] {
    } else {
      var n := |props| - 1;
      TableHoldsLastProps(dir, props[..n]);
      AssignLookup(Entries(dir, props[..n]), EntryOf(dir, props[n]));
      hide IsLastEntry, EntryOf, Assign;
      forall e ensures e in Entries(dir, props) <==> IsLastEntry(dir, props, e) {
        LastEntriesGrow(dir, props, e);
      }
    }
  }

  lemma {:induction false} SomeNameIsLast(dir: Direction, props: seq<Prop>, i: nat) returns (k: nat)
    requires i < |props|
    ensures IsLast(dir, props, k) && ReadName(dir, props[k]) == ReadName(dir, props[i])
    decreases |props| - i
  {
    if IsLast(dir, props, i) {
      k := i;
    } else {
      var j: nat :| i < j < |props| && ReadName(dir, props[j]) == ReadName(dir, props[i]);
      k := SomeNameIsLast(dir, props, j);
    }
  }

  lemma SourcesAreNames(dir: Direction, props: seq<Prop>, key: string)
    ensures IsSource(Entries(dir, props), key) <==> Names(dir, props, key)
  {
    var entries := Entries(dir, props);
    TableHoldsLastProps(dir, props);
    if IsSource(entries, key) {
      var i :| 0 <= i < |entries| && entries[i].source == key;
      assert entries[i] in entries;
    }
    if Names(dir, props, key) {
      var i :| 0 <= i < |props| && ReadName(dir, props[i]) == key;
      var k := SomeNameIsLast(dir, props, i);
      assert EntryOf(dir, props[k]) in entries;
    }
  }

  // ---------------------------------------------------------------- acceptance

  lemma {:induction false} KnownSucceedsIff(types: TypeMap, dir: Direction, v: Value, entries: seq<Entry>, n: nat)
    requires WellShaped(types) && v.Obj? && n <= |entries|
    ensures TransformKnown(types, dir, v, entries, n).Some?
       <==> forall i :: 0 <= i < n ==> Transform(types, dir, Field(v.fields, entries[i].source), entries[i].typ).Some?
    decreases n
  {
    hide Transform;
    if n == 0 {
    } else {
      KnownSucceedsIff(types, dir, v, entries, n - 1);
    }
  }

  lemma {:induction false} ItemsSucceedIff(types: TypeMap, dir: Direction, v: Value, element: Typ, i: nat)
    requires WellShaped(types) && v.Arr? && i <= |v.items|
    ensures var r := TransformItems(types, dir, v, element, i);
            && (r.Some? <==> forall k :: i <= k < |v.items| ==> Transform(types, dir, v.items[k], element).Some?)
            && (r.Some? ==> |r.value| == |v.items| - i)
            && (r.Some? ==> forall k :: i <= k < |v.items| ==> Transform(types, dir, v.items[k], element) == Some(r.value[k - i]))
    decreases |v.items| - i
  {
    hide Transform;
    if i == |v.items| {
    } else {
      ItemsSucceedIff(types, dir, v, element, i + 1);
    }
  }

  /** First-match search: the union's result is that of its first accepting member. */
  lemma {:induction false} UnionIsFirstMatch(types: TypeMap, dir: Direction, v: Value, t: Typ, i: nat)
    requires WellShaped(types) && t.Union? && i <= |t.members|
    ensures var r := TransformUnion(types, dir, v, t, i);
            if r.None? then forall k :: i <= k < |t.members| ==> Transform(types, dir, v, t.members[k]).None?
            else exists k :: i <= k < |t.members| && Transform(types, dir, v, t.members[k]) == r
                   && forall j :: i <= j < k ==> Transform(types, dir, v, t.members[j]).None?
    decreases |t.members| - i
  {
    hide Transform;
    if i == |t.members| {
    } else if Transform(types, dir, v, t.members[i]).None? {
      UnionIsFirstMatch(types, dir, v, t, i + 1);
    }
  }

  /** Soundness and completeness: the transformer terminates on every value, and accepts it exactly
      when it inhabits the type; for unions, first-match search finds a member if any accepts. */
  lemma {:induction false} AcceptsIffInhabits(types: TypeMap, dir: Direction, v: Value, t: Typ)
    requires WellShaped(types)
    ensures Transform(types, dir, v, t).Some? <==> Inhabits(types, dir, v, t)
    decreases if v.Undefined? then 0 else 1, v, 1, t
  {
    hide TransformUnion, TransformItems, TransformObject, InhabitsObject, Entries;
    match t
    case Any | NullType | Never | Primitive(_) | Enum(_) =>
    case Union(_) => UnionAcceptsIff(types, dir, v, t);
    case ArrayOf(element) =>
      if v.Arr? {
        ItemsAcceptIff(types, dir, v, element);
      }
    case Object(props, additional) => ObjectAcceptsIff(types, dir, v, props, additional);
    case Ref(name) =>
      if name in types && types[name].Object? {
        ObjectAcceptsIff(types, dir, v, types[name].props, types[name].additional);
      }
  }

  lemma {:induction false} UnionAcceptsIff(types: TypeMap, dir: Direction, v: Value, t: Typ)
    requires WellShaped(types) && t.Union?
    ensures TransformUnion(types, dir, v, t, 0).Some?
       <==> exists i :: 0 <= i < |t.members| && Inhabits(types, dir, v, t.members[i])
    decreases if v.Undefined? then 0 else 1, v, 1, t, 0
  {
    hide Transform, TransformUnion, Inhabits, WellShaped;
    UnionIsFirstMatch(types, dir, v, t, 0);
    forall i | 0 <= i < |t.members|
      ensures Transform(types, dir, v, t.members[i]).Some? <==> Inhabits(types, dir, v, t.members[i])
    {
      AcceptsIffInhabits(types, dir, v, t.members[i]);
    }
  }

  lemma {:induction false} ItemsAcceptIff(types: TypeMap, dir: Direction, v: Value, element: Typ)
    requires WellShaped(types) && v.Arr?
    ensures TransformItems(types, dir, v, element, 0).Some?
       <==> forall i :: 0 <= i < |v.items| ==> Inhabits(types, dir, v.items[i], element)
    decreases if v.Undefined? then 0 else 1, v, 0, 0
  {
    hide Transform, TransformItems, Inhabits, WellShaped;
    ItemsSucceedIff(types, dir, v, element, 0);
    forall i | 0 <= i < |v.items|
      ensures Transform(types, dir, v.items[i], element).Some? <==> Inhabits(types, dir, v.items[i], element)
    {
      AcceptsIffInhabits(types, dir, v.items[i], element);
    }
  }

  lemma {:induction false} KnownAcceptIff(types: TypeMap, dir: Direction, v: Value, props: seq<Prop>)
    requires WellShaped(types) && v.Obj?
    ensures TransformKnown(types, dir, v, Entries(dir, props), |Entries(dir, props)|).Some?
       <==> forall i: nat :: IsLast(dir, props, i) ==>
              Inhabits(types, dir, Field(v.fields, ReadName(dir, props[i])), props[i].typ)
    decreases if v.Undefined? then 0 else 1, v, 0, 0
  {
    hide Transform, Inhabits, WellShaped, Entries, TransformKnown;
    var entries := Entries(dir, props);
    TableHoldsLastProps(dir, props);
    KnownSucceedsIff(types, dir, v, entries, |entries|);
    forall i: nat | IsLast(dir, props, i)
      ensures var field := Field(v.fields, ReadName(dir, props[i]));
              Transform(types, dir, field, props[i].typ).Some? <==> Inhabits(types, dir, field, props[i].typ)
    {
      AcceptsIffInhabits(types, dir, Field(v.fields, ReadName(dir, props[i])), props[i].typ);
    }
    hide IsLast;
    forall i: nat | IsLast(dir, props, i)
      ensures exists k :: 0 <= k < |entries| && entries[k] == EntryOf(dir, props[i])
    {
      assert IsLastEntry(dir, props, EntryOf(dir, props[i]));
      assert EntryOf(dir, props[i]) in entries;
    }
    forall k | 0 <= k < |entries|
      ensures exists i: nat :: IsLast(dir, props, i) && EntryOf(dir, props[i]) == entries[k]
    {
      assert entries[k] in entries;
    }
  }

  lemma {:induction false} ObjectAcceptsIff(types: TypeMap, dir: Direction, v: Value, props: seq<Prop>, additional: Typ)
    requires WellShaped(types)
    ensures TransformObject(types, dir, v, Entries(dir, props), additional).Some?
       <==> InhabitsObject(types, dir, v, props, additional)
    decreases if v.Undefined? then 0 else 1, v, 0, 1
  {
    if v.Obj? {
      hide Transform, Inhabits, WellShaped, Entries, EntryOf, ReadName, Field, TransformKnown, IsSource, Names, IsLast,
        TransformExtras;
      KnownAcceptIff(types, dir, v, props);
      forall key | key in v.fields
        ensures IsSource(Entries(dir, props), key) <==> Names(dir, props, key)
        ensures Transform(types, dir, v.fields[key], additional).Some? <==> Inhabits(types, dir, v.fields[key], additional)
      {
        SourcesAreNames(dir, props, key);
        AcceptsIffInhabits(types, dir, v.fields[key], additional);
      }
    }
  }
}
