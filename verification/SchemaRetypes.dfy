/** The property retypes a diff only warns about, and a schema diffed against itself. */
module SchemaRetypes {
  import opened Text
  import opened SchemaModel
  import opened SchemaDiff
  import opened SchemaConformance
  import opened SchemaConvergence

  // ----- the retypes that remain -----

  function PropertyRetypes(typeName: string, d: Table<Property>, a: map<string, Property>, n: nat): seq<Action>
    requires d.Valid() && n <= |d.keys|
  {
    if n == 0 then []
    else
      var p := d.keys[n - 1];
      PropertyRetypes(typeName, d, a, n - 1)
      + (if p in a && a[p].typeName != d.at[p].typeName then [Within(typeName, Alter(p, Retype(d.at[p].typeName)))] else [])
  }

  function SchemaRetypes(desired: Schema, actual: Schema, n: nat): seq<Action>
    requires ValidSchema(desired) && n <= |desired.keys|
  {
    if n == 0 then []
    else
      var t := desired.keys[n - 1];
      SchemaRetypes(desired, actual, n - 1)
      + (if t in actual.at && !Skipped(desired.at[t], actual.at[t]) then
           PropertyRetypes(t, desired.at[t].properties, actual.at[t].properties.at, |desired.at[t].properties.keys|)
         else [])
  }

  lemma {:induction false} RetypesConcat(a: seq<Action>, b: seq<Action>)
    ensures Retypes(a + b) == Retypes(a) + Retypes(b)
  {
    hide IsRetype;
    if b == [] {
      assert a + b == a;
    } else {
      assert (a + b)[..|a + b| - 1] == a + b[..|b| - 1];
      RetypesConcat(a, b[..|b| - 1]);
    }
  }

  lemma {:induction false} NoRetypes(a: seq<Action>)
    requires forall x | x in a :: !IsRetype(x)
    ensures Retypes(a) == []
  {
    if a != [] { NoRetypes(a[..|a| - 1]); }
  }

  lemma EditsWithoutRetype(typeName: string, p: string, head: seq<Edit>, rest: seq<Edit>)
    requires |head| <= 1 && (forall e | e in head :: e.Retype?) && forall e | e in rest :: !e.Retype?
    ensures Retypes(Edits(typeName, p, head + rest)) == Edits(typeName, p, head)
  {
    hide Retypes;
    assert Edits(typeName, p, head + rest) == Edits(typeName, p, head) + Edits(typeName, p, rest);
    RetypesConcat(Edits(typeName, p, head), Edits(typeName, p, rest));
    forall x | x in Edits(typeName, p, rest) ensures !IsRetype(x) {
      var i :| 0 <= i < |rest| && Edits(typeName, p, rest)[i] == x;
      assert rest[i] in rest;
    }
    NoRetypes(Edits(typeName, p, rest));
    RetypesOfHead(typeName, p, head);
  }

  lemma PropertyActionsRetypes(typeName: string, p: string, d: Property, a: Table<Property>, snap: Option<Snapshot>)
    ensures Retypes(PropertyActions(typeName, p, d, a, snap)) ==
            if p in a.at && a.at[p].typeName != d.typeName then [Within(typeName, Alter(p, Retype(d.typeName)))] else []
  {
    hide FlagEdits, BoundEdits, DefaultEdits, Retypes;
    if p in a.at {
      var head := if d.typeName != a.at[p].typeName then [Retype(d.typeName)] else [];
      var f, b, g := FlagEdits(d, a.at[p], |FLAGS|), BoundEdits(d, a.at[p], |BOUNDS|), DefaultEdits(typeName, p, d, a.at[p], snap);
      FlagAndBoundEditsKind(d, a.at[p], |FLAGS|);
      FlagAndBoundEditsKind(d, a.at[p], |BOUNDS|);
      DefaultEditsNone(typeName, p, d, a.at[p], snap);
      assert PropertyEdits(typeName, p, d, a.at[p], snap) == head + (f + b + g);
      EditsWithoutRetype(typeName, p, head, f + b + g);
      RetypesOfHead(typeName, p, head);
    } else {
      NoRetypes(PropertyActions(typeName, p, d, a, snap));
    }
  }

  lemma RetypesOfHead(typeName: string, p: string, head: seq<Edit>)
    requires |head| <= 1 && forall e | e in head :: e.Retype?
    ensures Retypes(Edits(typeName, p, head)) == Edits(typeName, p, head)
    ensures head != [] ==> Edits(typeName, p, head) == [Within(typeName, Alter(p, head[0]))]
  {
    var acts := Edits(typeName, p, head);
    if acts != [] {
      assert acts[..0] == [] && head[0] in head;
      assert Retypes(acts) == Retypes(acts[..0]) + [acts[0]];
    }
  }

  lemma {:induction false} PropertiesActionsRetypes(typeName: string, d: Table<Property>, a: Table<Property>,
      snap: Option<Snapshot>, n: nat)
    requires d.Valid() && n <= |d.keys|
    ensures Retypes(PropertiesActions(typeName, d, a, snap, n)) == PropertyRetypes(typeName, d, a.at, n)
  {
    hide PropertyActions, Retypes;
    if n > 0 {
      var p := d.keys[n - 1];
      PropertiesActionsRetypes(typeName, d, a, snap, n - 1);
      RetypesConcat(PropertiesActions(typeName, d, a, snap, n - 1), PropertyActions(typeName, p, d.at[p], a, snap));
      PropertyActionsRetypes(typeName, p, d.at[p], a, snap);
    } else {
      NoRetypes([]);
    }
  }

  lemma {:induction false} NoPropertiesNoRetypes(typeName: string, d: Table<Property>, n: nat)
    requires d.Valid() && n <= |d.keys|
    ensures PropertyRetypes(typeName, d, map[], n) == []
  {
    if n > 0 { NoPropertiesNoRetypes(typeName, d, n - 1); }
  }

  lemma TypeActionsRetypes(name: string, d: Type, actual: Schema, snap: Option<Snapshot>)
    requires d.properties.Valid()
    ensures Retypes(TypeActions(name, d, actual, snap)) ==
            if name in actual.at && !Skipped(d, actual.at[name]) then
              PropertyRetypes(name, d.properties, actual.at[name].properties.at, |d.properties.keys|)
            else []
  {
    hide Retypes, PropertiesActions, IndexesActions, SupersActions, PropertyRetypes;
    NoRetypes([]);
    if name in actual.at {
      var a := actual.at[name];
      var x, y, z := SupersActions(name, d.supers, a.supers),
                     PropertiesActions(name, d.properties, a.properties, snap, |d.properties.keys|),
                     IndexesActions(name, d.indexes, a.indexes, |d.indexes|);
      SupersActionsNone(name, d.supers, a.supers);
      IndexesActionsNone(name, d.indexes, a.indexes, |d.indexes|);
      NoRetypes(x);
      NoRetypes(z);
      PropertiesActionsRetypes(name, d.properties, a.properties, snap, |d.properties.keys|);
      RetypesConcat(x, y);
      RetypesConcat(x + y, z);
    } else {
      var c := [CreateType(name, d.kind, d.supers)];
      var y, z := PropertiesActions(name, d.properties, Table([], map[]), snap, |d.properties.keys|),
          IndexesActions(name, d.indexes, [], |d.indexes|);
      NoRetypes(c);
      IndexesActionsNone(name, d.indexes, [], |d.indexes|);
      NoRetypes(z);
      PropertiesActionsRetypes(name, d.properties, Table([], map[]), snap, |d.properties.keys|);
      NoPropertiesNoRetypes(name, d.properties, |d.properties.keys|);
      RetypesConcat(y, z);
      RetypesConcat(c, y + z);
      assert c + [] == c;
    }
  }

  lemma {:induction false} AllTypeActionsRetypes(desired: Schema, actual: Schema, snap: Option<Snapshot>, n: nat)
    requires ValidSchema(desired) && n <= |desired.keys|
    ensures Retypes(AllTypeActions(desired, actual, snap, n)) == SchemaRetypes(desired, actual, n)
  {
    hide TypeActions, Retypes, PropertyRetypes;
    if n > 0 {
      var t := desired.keys[n - 1];
      AllTypeActionsRetypes(desired, actual, snap, n - 1);
      RetypesConcat(AllTypeActions(desired, actual, snap, n - 1), TypeActions(t, desired.at[t], actual, snap));
      TypeActionsRetypes(t, desired.at[t], actual, snap);
    } else {
      NoRetypes([]);
    }
  }

  lemma DiffRetypes(desired: Schema, actual: Schema, snap: Option<Snapshot>, strategy: DropStrategy,
      ignored: set<string>)
    requires ValidSchema(desired)
    ensures Retypes(Diff(desired, actual, snap, strategy, ignored)) == SchemaRetypes(desired, actual, |desired.keys|)
  {
    hide AllTypeActions, Drops, Retypes, SchemaRetypes;
    var drops := if strategy.Explicit? then Drops(desired, actual, ignored, |actual.keys|) else [];
    DropsMeaning(desired, actual, ignored, |actual.keys|);
    NoRetypes(drops);
    RetypesConcat(AllTypeActions(desired, actual, snap, |desired.keys|), drops);
    AllTypeActionsRetypes(desired, actual, snap, |desired.keys|);
  }

  /** The data types of `before` survive in `after`, where new properties have the declared one. */
  ghost predicate SameDataTypes(d: Table<Property>, before: map<string, Property>, after: map<string, Property>) {
    forall p | p in d.at :: p in after && after[p].typeName == if p in before then before[p].typeName else d.at[p].typeName
  }

  lemma {:induction false} RetypesRemain(typeName: string, d: Table<Property>, before: map<string, Property>,
      after: map<string, Property>, n: nat)
    requires d.Valid() && n <= |d.keys| && SameDataTypes(d, before, after)
    ensures PropertyRetypes(typeName, d, after, n) == PropertyRetypes(typeName, d, before, n)
  {
    if n > 0 { RetypesRemain(typeName, d, before, after, n - 1); }
  }

  lemma TypeKeepsDataTypes(db: Database, desired: Schema, t: string, before: Option<Type>, a: Type, b: Type,
      snap: Option<Snapshot>)
    requires ValidSchema(desired) && t in desired.at && !Skipped(desired.at[t], a)
    requires TypeSettles(db, t, desired.at[t], before, a, snap) && SameType(desired, t, a, b)
    ensures SameDataTypes(desired.at[t].properties, if before.Some? then before.value.properties.at else map[], b.properties.at)
  {
    hide SettledUpTo, HasIndex;
    var d := desired.at[t].properties;
    var was := if before.Some? then before.value.properties.at else map[];
    forall p | p in d.at
      ensures p in b.properties.at && b.properties.at[p].typeName == if p in was then was[p].typeName else d.at[p].typeName
    {
      assert d.keys[..|d.keys|] == d.keys && p in d.keys;
      SettledUpToAt(db, t, d, was, snap, |d.keys|, p);
    }
  }

  /** The second diff warns about exactly the same retypes as the first, in the same order. */
  lemma TypeRetypesStay(db: Database, desired: Schema, t: string, before: Option<Type>, a: Type, b: Type,
      snap: Option<Snapshot>)
    requires ValidSchema(desired) && t in desired.at
    requires TypeSettles(db, t, desired.at[t], before, a, snap) && SameType(desired, t, a, b)
    ensures var d := desired.at[t];
            (if !Skipped(d, b) then PropertyRetypes(t, d.properties, b.properties.at, |d.properties.keys|) else [])
            == (if before.Some? && !Skipped(d, before.value)
                then PropertyRetypes(t, d.properties, before.value.properties.at, |d.properties.keys|) else [])
  {
    hide PropertyRetypes, SettledUpTo, HasIndex, SameDataTypes, SameNames;
    var d := desired.at[t];
    if !Skipped(d, a) {
      TypeKeepsDataTypes(db, desired, t, before, a, b, snap);
      RetypesRemain(t, d.properties, if before.Some? then before.value.properties.at else map[], b.properties.at,
          |d.properties.keys|);
      NoPropertiesNoRetypes(t, d.properties, |d.properties.keys|);
    }
  }

  /** The second diff sees exactly the retypes the first one saw, in the same order. */
  lemma {:induction false} RetypesStay(db: Database, desired: Schema, actual: Schema, snap: Option<Snapshot>,
      strategy: DropStrategy, ignored: set<string>, again: Schema, n: nat)
    requires ValidSchema(desired) && ValidSchema(actual) && n <= |desired.keys|
    requires Reread(desired, ApplyActions(db, actual, Diff(desired, actual, snap, strategy, ignored)), again)
    ensures SchemaRetypes(desired, again, n) == SchemaRetypes(desired, actual, n)
  {
    hide Diff, TypeSettles, SameType, PropertyRetypes, ApplyActions, ValidSchema;
    if n > 0 {
      var t := desired.keys[n - 1];
      DeclaredType(desired, n);
      RetypesStay(db, desired, actual, snap, strategy, ignored, again, n - 1);
      var s := ApplyActions(db, actual, Diff(desired, actual, snap, strategy, ignored));
      DiffApplied(db, desired, actual, snap, strategy, ignored);
      TypeRetypesStay(db, desired, t, Standing(actual, t), s.at[t], again.at[t], snap);
    }
  }

  /** The second diff warns about exactly the retypes the first one warned about. */
  lemma SecondDiffWarnsTheSame(db: Database, desired: Schema, actual: Schema, snap: Option<Snapshot>,
      strategy: DropStrategy, ignored: set<string>, again: Schema)
    requires ValidSchema(desired) && ValidSchema(actual)
    requires Reread(desired, ApplyActions(db, actual, Diff(desired, actual, snap, strategy, ignored)), again)
    ensures var s := ApplyActions(db, actual, Diff(desired, actual, snap, strategy, ignored));
            Retypes(Diff(desired, again, Some(Recorded(desired, s)), strategy, ignored))
            == Retypes(Diff(desired, actual, snap, strategy, ignored))
  {
    hide Diff, Retypes, SchemaRetypes, Recorded;
    var s := ApplyActions(db, actual, Diff(desired, actual, snap, strategy, ignored));
    DiffRetypes(desired, again, Some(Recorded(desired, s)), strategy, ignored);
    DiffRetypes(desired, actual, snap, strategy, ignored);
    RetypesStay(db, desired, actual, snap, strategy, ignored, again, |desired.keys|);
  }

  // ----- a schema against itself -----

  lemma {:induction false} RenderedAndRetypes(a: seq<Action>)
    requires Rendered(a) == [] && Retypes(a) == []
    ensures a == []
  {
  }

  lemma {:induction false} SelfPropertyRetypes(typeName: string, d: Table<Property>, n: nat)
    requires d.Valid() && n <= |d.keys|
    ensures PropertyRetypes(typeName, d, d.at, n) == []
  {
    if n > 0 {
      SelfPropertyRetypes(typeName, d, n - 1);
      assert d.keys[n - 1] in d.keys;
    }
  }

  lemma {:induction false} SelfRetypes(s: Schema, n: nat)
    requires ValidSchema(s) && n <= |s.keys|
    ensures SchemaRetypes(s, s, n) == []
  {
    hide PropertyRetypes;
    if n > 0 {
      SelfRetypes(s, n - 1);
      SelfPropertyRetypes(s.keys[n - 1], s.at[s.keys[n - 1]].properties, |s.at[s.keys[n - 1]].properties.keys|);
    }
  }

  /** Without a snapshot, a schema diffed against itself gives no action at all. */
  lemma SelfDiffIsEmpty(s: Schema, strategy: DropStrategy, ignored: set<string>)
    requires ValidSchema(s)
    ensures Diff(s, s, None, strategy, ignored) == []
  {
    hide Diff, Rendered, Retypes, SchemaRetypes;
    forall n | n in s.at ensures TypeConforms(n, s.at[n], s.at[n], None) {
      var d := s.at[n];
      forall i | 0 <= i < |d.indexes| ensures HasIndex(d.indexes, d.indexes[i]) {
        assert IndexesMatch(d.indexes[i], d.indexes[i]);
      }
    }
    RendersIffNotConforming(s, s, None, strategy, ignored);
    DiffRetypes(s, s, None, strategy, ignored);
    SelfRetypes(s, |s.keys|);
    RenderedAndRetypes(Diff(s, s, None, strategy, ignored));
  }
}
