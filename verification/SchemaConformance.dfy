/** What the diff means: it has something to render exactly when the actual schema does not
    conform to the desired one, and what it may remove. */
module SchemaConformance {
  import opened Text
  import opened SchemaModel
  import opened SchemaDiff
  import Classification

  // ----- conformance, without reference to actions -----

  /** A default is settled when both sides lack it, or both have it and, if there is a snapshot,
      its text is the one last applied and, unless it is an expression (which a parenthesis
      makes it), its value is the one recorded then. */
  ghost predicate DefaultSettled(typeName: string, property: string, d: Option<string>, a: Option<string>,
      snap: Option<Snapshot>) {
    && (d.None? <==> a.None?)
    && (d.Some? && snap.Some? ==>
          && AppliedDefaultExpr(snap.value, typeName, property) == d
          && ('(' in d.value || ResolvedDefault(snap.value, typeName, property) == a))
  }

  ghost predicate PropertyConforms(typeName: string, property: string, d: Property, a: Property,
      snap: Option<Snapshot>) {
    && d.flags == a.flags
    && (forall b :: BoundKept(d, a, b))
    && DefaultSettled(typeName, property, d.default, a.default, snap)
  }

  ghost predicate PropertiesConform(typeName: string, d: Table<Property>, a: Table<Property>, snap: Option<Snapshot>) {
    forall p | p in d.at :: p in a.at && PropertyConforms(typeName, p, d.at[p], a.at[p], snap)
  }

  /** Time series types are never reconciled in place. */
  predicate Skipped(d: Type, a: Type) {
    d.kind.Timeseries? || a.kind.Timeseries?
  }

  ghost predicate SameNames(a: seq<string>, b: seq<string>) {
    forall x :: x in a <==> x in b
  }

  ghost predicate TypeConforms(name: string, d: Type, a: Type, snap: Option<Snapshot>) {
    || Skipped(d, a)
    || (&& SameNames(d.supers, a.supers)
        && PropertiesConform(name, d.properties, a.properties, snap)
        && forall i | 0 <= i < |d.indexes| :: IndexPresent(a.indexes, d.indexes[i]))
  }

  /** One of `have` is the wanted index: under its name where both are named, and otherwise over
      the same columns and of the same kind. */
  ghost predicate IndexPresent(have: seq<Index>, want: Index) {
    exists x | x in have ::
      || (x.name.Some? && want.name.Some? && x.name.value == want.name.value)
      || ((x.name.None? || want.name.None?) && x.columns == want.columns && x.kind == want.kind)
  }

  ghost predicate Conforms(desired: Schema, actual: Schema, snap: Option<Snapshot>, strategy: DropStrategy,
      ignored: set<string>) {
    && (forall n | n in desired.at :: n in actual.at && TypeConforms(n, desired.at[n], actual.at[n], snap))
    && (strategy.Explicit? ==> forall n | n in actual.at :: n in desired.at || n in ignored)
  }

  // ----- the diff renders nothing iff the schema conforms -----

  predicate OnlyRetypes(actions: seq<Action>) {
    forall i | 0 <= i < |actions| :: IsRetype(actions[i])
  }

  lemma {:induction false} RenderedNothing(actions: seq<Action>)
    ensures Rendered(actions) == [] <==> OnlyRetypes(actions)
  {
    hide IsRetype;
    if actions != [] {
      RenderedNothing(actions[..|actions| - 1]);
    }
  }

  lemma OnlyRetypesConcat(a: seq<Action>, b: seq<Action>)
    ensures OnlyRetypes(a + b) <==> OnlyRetypes(a) && OnlyRetypes(b)
  {
    if OnlyRetypes(a + b) {
      forall i | 0 <= i < |a| ensures IsRetype(a[i]) { assert (a + b)[i] == a[i]; }
      forall i | 0 <= i < |b| ensures IsRetype(b[i]) { assert (a + b)[|a| + i] == b[i]; }
    }
  }

  predicate FlagKept(d: Property, a: Property, f: Flag) {
    f in d.flags <==> f in a.flags
  }

  lemma FlagEditsNone(d: Property, a: Property)
    ensures FlagEdits(d, a, |FLAGS|) == [] <==> d.flags == a.flags
  {
    assert FlagEdits(d, a, 1) == [] <==> FlagKept(d, a, Mandatory);
    assert FlagEdits(d, a, 2) == [] <==> FlagEdits(d, a, 1) == [] && FlagKept(d, a, NotNull);
    assert FlagEdits(d, a, 3) == [] <==> FlagEdits(d, a, 2) == [] && FlagKept(d, a, ReadOnly);
    assert FlagEdits(d, a, 4) == [] <==> FlagEdits(d, a, 3) == [] && FlagKept(d, a, External);
    if FlagEdits(d, a, 4) == [] {
      forall f ensures FlagKept(d, a, f) {
        match f case Mandatory => case NotNull => case ReadOnly => case External =>
      }
      assert forall f :: f in d.flags <==> FlagKept(d, a, f) && f in a.flags;
    }
  }

  predicate BoundKept(d: Property, a: Property, b: Bound) {
    b in d.bounds ==> b in a.bounds && a.bounds[b] == d.bounds[b]
  }

  lemma BoundEditsNone(d: Property, a: Property)
    ensures BoundEdits(d, a, |BOUNDS|) == [] <==> forall b :: BoundKept(d, a, b)
  {
    assert BoundEdits(d, a, 1) == [] <==> BoundKept(d, a, Min);
    assert BoundEdits(d, a, 2) == [] <==> BoundEdits(d, a, 1) == [] && BoundKept(d, a, Max);
    assert BoundEdits(d, a, 3) == [] <==> BoundEdits(d, a, 2) == [] && BoundKept(d, a, Regexp);
    if BoundEdits(d, a, 3) == [] {
      forall b ensures BoundKept(d, a, b) {
        match b case Min => case Max => case Regexp =>
      }
    }
  }

  lemma DefaultEditsNone(typeName: string, property: string, d: Property, a: Property, snap: Option<Snapshot>)
    ensures DefaultEdits(typeName, property, d, a, snap) == [] <==> DefaultSettled(typeName, property, d.default, a.default, snap)
    ensures forall e | e in DefaultEdits(typeName, property, d, a, snap) :: e.SetDefault?
  {
  }

  lemma FlagAndBoundEditsKind(d: Property, a: Property, n: nat)
    ensures n <= |FLAGS| ==> forall e | e in FlagEdits(d, a, n) :: e.SetFlag?
    ensures n <= |BOUNDS| ==> forall e | e in BoundEdits(d, a, n) :: e.SetBound?
  {
  }

  lemma EditsByKind(r: seq<Edit>, rest: seq<Edit>)
    requires (forall e | e in r :: e.Retype?) && forall e | e in rest :: !e.Retype?
    ensures (forall e | e in r + rest :: e.Retype?) <==> rest == []
    ensures (forall e | e in r + rest :: !e.Retype?) <==> r == []
  {
    assert forall e :: e in r + rest <==> e in r || e in rest;
    assert r != [] ==> r[0] in r;
    assert rest != [] ==> rest[0] in rest;
  }

  lemma PropertyEditsNone(typeName: string, property: string, d: Property, a: Property, snap: Option<Snapshot>)
    ensures var edits := PropertyEdits(typeName, property, d, a, snap);
            && ((forall e | e in edits :: e.Retype?) <==> PropertyConforms(typeName, property, d, a, snap))
            && ((forall e | e in edits :: !e.Retype?) <==> d.typeName == a.typeName)
  {
    hide FlagEdits, BoundEdits, DefaultEdits, DefaultSettled, BoundKept;
    DefaultEditsNone(typeName, property, d, a, snap);
    FlagEditsNone(d, a);
    BoundEditsNone(d, a);
    FlagAndBoundEditsKind(d, a, |FLAGS|);
    FlagAndBoundEditsKind(d, a, |BOUNDS|);
    var r := if d.typeName != a.typeName then [Retype(d.typeName)] else [];
    var rest := FlagEdits(d, a, |FLAGS|) + BoundEdits(d, a, |BOUNDS|) + DefaultEdits(typeName, property, d, a, snap);
    assert PropertyEdits(typeName, property, d, a, snap) == r + rest;
    EditsByKind(r, rest);
  }

  lemma PropertyActionsNone(typeName: string, p: string, d: Property, a: Table<Property>, snap: Option<Snapshot>)
    ensures OnlyRetypes(PropertyActions(typeName, p, d, a, snap)) <==>
            p in a.at && PropertyConforms(typeName, p, d, a.at[p], snap)
  {
    hide PropertyEdits;
    if p in a.at {
      var edits := PropertyEdits(typeName, p, d, a.at[p], snap);
      PropertyEditsNone(typeName, p, d, a.at[p], snap);
      var acts := Edits(typeName, p, edits);
      if OnlyRetypes(acts) {
        forall e | e in edits ensures e.Retype? {
          var i :| 0 <= i < |edits| && edits[i] == e;
          assert IsRetype(acts[i]);
        }
      }
    } else {
      assert !IsRetype(PropertyActions(typeName, p, d, a, snap)[0]);
    }
  }

  lemma {:induction false} PropertiesActionsNone(typeName: string, d: Table<Property>, a: Table<Property>,
      snap: Option<Snapshot>, n: nat)
    requires d.Valid() && n <= |d.keys|
    ensures OnlyRetypes(PropertiesActions(typeName, d, a, snap, n)) <==>
            forall i | 0 <= i < n ::
              d.keys[i] in a.at && PropertyConforms(typeName, d.keys[i], d.at[d.keys[i]], a.at[d.keys[i]], snap)
  {
    hide PropertyActions, PropertyConforms, OnlyRetypes;
    if n > 0 {
      var p := d.keys[n - 1];
      PropertiesActionsNone(typeName, d, a, snap, n - 1);
      PropertyActionsNone(typeName, p, d.at[p], a, snap);
      OnlyRetypesConcat(PropertiesActions(typeName, d, a, snap, n - 1), PropertyActions(typeName, p, d.at[p], a, snap));
    } else {
      RenderedNothing([]);
    }
  }

  lemma AllPropertiesNone(typeName: string, d: Table<Property>, a: Table<Property>, snap: Option<Snapshot>)
    requires d.Valid()
    ensures OnlyRetypes(PropertiesActions(typeName, d, a, snap, |d.keys|)) <==> PropertiesConform(typeName, d, a, snap)
  {
    hide PropertyConforms, PropertiesActions, OnlyRetypes;
    PropertiesActionsNone(typeName, d, a, snap, |d.keys|);
    if PropertiesConform(typeName, d, a, snap) {
      forall i | 0 <= i < |d.keys|
        ensures d.keys[i] in a.at && PropertyConforms(typeName, d.keys[i], d.at[d.keys[i]], a.at[d.keys[i]], snap)
      {
        assert d.keys[i] in d.at;
      }
    } else {
      var p :| p in d.at && !(p in a.at && PropertyConforms(typeName, p, d.at[p], a.at[p], snap));
      assert p in d.keys;
    }
  }

  lemma PresentIff(have: seq<Index>, want: Index)
    ensures HasIndex(have, want) <==> IndexPresent(have, want)
  {
    if HasIndex(have, want) {
      var i :| 0 <= i < |have| && IndexesMatch(have[i], want);
      assert have[i] in have;
    }
    if x :| x in have && (|| (x.name.Some? && want.name.Some? && x.name.value == want.name.value)
                          || ((x.name.None? || want.name.None?) && x.columns == want.columns && x.kind == want.kind)) {
      var i :| 0 <= i < |have| && have[i] == x;
      assert IndexesMatch(have[i], want);
    }
  }

  /** A desired index is created exactly when the database has none under its name, both named,
      and none over its columns and of its kind, one of the two unnamed. */
  lemma {:induction false} IndexCreatedIff(typeName: string, d: seq<Index>, a: seq<Index>, n: nat, want: Index)
    requires n <= |d|
    ensures Within(typeName, CreateIndex(want)) in IndexesActions(typeName, d, a, n)
            <==> want in d[..n] && !IndexPresent(a, want)
  {
    hide HasIndex, IndexPresent;
    if n > 0 {
      IndexCreatedIff(typeName, d, a, n - 1, want);
      TakeNext(d, n);
      PresentIff(a, d[n - 1]);
    }
  }

  lemma {:induction false} IndexesActionsNone(typeName: string, d: seq<Index>, a: seq<Index>, n: nat)
    requires n <= |d|
    ensures OnlyRetypes(IndexesActions(typeName, d, a, n)) <==> forall i | 0 <= i < n :: IndexPresent(a, d[i])
    ensures forall x | x in IndexesActions(typeName, d, a, n) :: !IsRetype(x) && !Removes(x)
  {
    hide HasIndex, IndexPresent;
    if n > 0 {
      IndexesActionsNone(typeName, d, a, n - 1);
      PresentIff(a, d[n - 1]);
      var last := if HasIndex(a, d[n - 1]) then [] else [Within(typeName, CreateIndex(d[n - 1]))];
      OnlyRetypesConcat(IndexesActions(typeName, d, a, n - 1), last);
      assert OnlyRetypes(last) <==> HasIndex(a, d[n - 1]) by { if last != [] { assert !IsRetype(last[0]); } }
    }
  }

  lemma SupersActionsNone(typeName: string, d: seq<string>, a: seq<string>)
    ensures OnlyRetypes(SupersActions(typeName, d, a)) <==> SameNames(d, a)
    ensures forall x | x in SupersActions(typeName, d, a) :: !IsRetype(x) && !Removes(x)
  {
    var add, remove := Without(d, a), Without(a, d);
    hide Without;
    if add == [] && remove == [] {
      assert SupersActions(typeName, d, a) == [];
      forall x ensures x in d <==> x in a { assert x !in add && x !in remove; }
    } else {
      var only := Within(typeName, AlterSupers(add, remove));
      assert SupersActions(typeName, d, a) == [only];
      assert !IsRetype([only][0]);
      if add != [] {
        assert add[0] in add;
        assert add[0] in d && add[0] !in a;
      } else {
        assert remove[0] in remove;
        assert remove[0] in a && remove[0] !in d;
      }
    }
  }

  lemma TypeActionsNone(name: string, d: Type, actual: Schema, snap: Option<Snapshot>)
    requires d.properties.Valid()
    ensures OnlyRetypes(TypeActions(name, d, actual, snap)) <==> name in actual.at && TypeConforms(name, d, actual.at[name], snap)
  {
    hide OnlyRetypes, PropertiesActions, IndexesActions, SupersActions, PropertiesConform, IndexPresent;
    if name !in actual.at {
      assert OnlyRetypes(TypeActions(name, d, actual, snap)) ==> IsRetype(TypeActions(name, d, actual, snap)[0]) by {
        FirstIsRetype(TypeActions(name, d, actual, snap));
      }
    } else if Skipped(d, actual.at[name]) {
      RenderedNothing([]);
    } else {
      var a := actual.at[name];
      var s, p, i := SupersActions(name, d.supers, a.supers),
                     PropertiesActions(name, d.properties, a.properties, snap, |d.properties.keys|),
                     IndexesActions(name, d.indexes, a.indexes, |d.indexes|);
      SupersActionsNone(name, d.supers, a.supers);
      AllPropertiesNone(name, d.properties, a.properties, snap);
      IndexesActionsNone(name, d.indexes, a.indexes, |d.indexes|);
      OnlyRetypesConcat(s, p);
      OnlyRetypesConcat(s + p, i);
    }
  }

  lemma FirstIsRetype(actions: seq<Action>)
    requires actions != []
    ensures OnlyRetypes(actions) ==> IsRetype(actions[0])
  {
  }

  lemma {:induction false} AllTypeActionsNone(desired: Schema, actual: Schema, snap: Option<Snapshot>, n: nat)
    requires ValidSchema(desired) && n <= |desired.keys|
    ensures OnlyRetypes(AllTypeActions(desired, actual, snap, n)) <==>
            forall i | 0 <= i < n :: desired.keys[i] in actual.at
                && TypeConforms(desired.keys[i], desired.at[desired.keys[i]], actual.at[desired.keys[i]], snap)
  {
    hide OnlyRetypes, TypeActions, TypeConforms;
    if n > 0 {
      var name := desired.keys[n - 1];
      AllTypeActionsNone(desired, actual, snap, n - 1);
      TypeActionsNone(name, desired.at[name], actual, snap);
      OnlyRetypesConcat(AllTypeActions(desired, actual, snap, n - 1), TypeActions(name, desired.at[name], actual, snap));
    } else {
      RenderedNothing([]);
    }
  }

  lemma {:induction false} DropsMeaning(desired: Schema, actual: Schema, ignored: set<string>, n: nat)
    requires n <= |actual.keys|
    ensures forall a | a in Drops(desired, actual, ignored, n) :: a.DropType?
    ensures forall name :: DropType(name) in Drops(desired, actual, ignored, n) <==>
              name in actual.keys[..n] && name !in desired.at && name !in ignored
  {
    if n > 0 {
      DropsMeaning(desired, actual, ignored, n - 1);
      assert actual.keys[..n] == actual.keys[..n - 1] + [actual.keys[n - 1]];
    }
  }

  /** The migrator has something to render for a pair of schemas exactly when the actual one
      does not conform to the desired one. */
  lemma RendersIffNotConforming(desired: Schema, actual: Schema, snap: Option<Snapshot>, strategy: DropStrategy,
      ignored: set<string>)
    requires ValidSchema(desired) && ValidSchema(actual)
    ensures Rendered(Diff(desired, actual, snap, strategy, ignored)) == [] <==> Conforms(desired, actual, snap, strategy, ignored)
  {
    hide OnlyRetypes, AllTypeActions, TypeConforms, Drops;
    var types := AllTypeActions(desired, actual, snap, |desired.keys|);
    var drops := if strategy.Explicit? then Drops(desired, actual, ignored, |actual.keys|) else [];
    RenderedNothing(types + drops);
    OnlyRetypesConcat(types, drops);
    AllTypeActionsNone(desired, actual, snap, |desired.keys|);
    DropsMeaning(desired, actual, ignored, |actual.keys|);
    assert actual.keys[..|actual.keys|] == actual.keys;
    if drops == [] { RenderedNothing([]); } else { FirstIsRetype(drops); assert drops[0] in drops; }
    assert (forall n | n in desired.at :: n in actual.at && TypeConforms(n, desired.at[n], actual.at[n], snap))
        <==> OnlyRetypes(types) by {
      assert forall i | 0 <= i < |desired.keys| :: desired.keys[i] in desired.at;
      assert forall n | n in desired.at :: exists i :: 0 <= i < |desired.keys| && desired.keys[i] == n;
    }
  }

  // ----- what a diff may remove -----

  lemma TypeRemovesNothing(name: string, d: Type, actual: Schema, snap: Option<Snapshot>)
    requires d.properties.Valid()
    ensures forall a | a in TypeActions(name, d, actual, snap) :: !Removes(a)
  {
    hide PropertiesActions, IndexesActions, SupersActions, IsRetype;
    if name in actual.at {
      var a := actual.at[name];
      PropertiesRemoveNothing(name, d.properties, a.properties, snap, |d.properties.keys|);
      IndexesActionsNone(name, d.indexes, a.indexes, |d.indexes|);
      SupersActionsNone(name, d.supers, a.supers);
    } else {
      PropertiesRemoveNothing(name, d.properties, Table([], map[]), snap, |d.properties.keys|);
      IndexesActionsNone(name, d.indexes, [], |d.indexes|);
    }
  }

  lemma {:induction false} TypeActionsRemoveNothing(desired: Schema, actual: Schema, snap: Option<Snapshot>, n: nat)
    requires ValidSchema(desired) && n <= |desired.keys|
    ensures forall a | a in AllTypeActions(desired, actual, snap, n) :: !Removes(a)
  {
    hide TypeActions, Removes;
    if n > 0 {
      TypeActionsRemoveNothing(desired, actual, snap, n - 1);
      TypeRemovesNothing(desired.keys[n - 1], desired.at[desired.keys[n - 1]], actual, snap);
    }
  }

  lemma {:induction false} PropertiesRemoveNothing(typeName: string, d: Table<Property>, a: Table<Property>,
      snap: Option<Snapshot>, n: nat)
    requires d.Valid() && n <= |d.keys|
    ensures forall x | x in PropertiesActions(typeName, d, a, snap, n) :: !Removes(x)
  {
    hide PropertyEdits;
    if n > 0 {
      PropertiesRemoveNothing(typeName, d, a, snap, n - 1);
    }
  }

  /** Drop safety. Without an explicit drop strategy nothing is ever removed, so the guard never
      refuses; with it, the types removed are exactly the actual ones that are neither desired
      nor owned by an override, and no property or index is removed. */
  lemma DropsExactlyTheUnowned(desired: Schema, actual: Schema, snap: Option<Snapshot>, strategy: DropStrategy,
      ignored: set<string>)
    requires ValidSchema(desired) && ValidSchema(actual)
    ensures forall a | a in Diff(desired, actual, snap, strategy, ignored) :: Removes(a) ==> strategy.Explicit? && a.DropType?
    ensures strategy.Explicit? ==> forall name ::
              DropType(name) in Diff(desired, actual, snap, strategy, ignored) <==>
              name in actual.at && name !in desired.at && name !in ignored
  {
    hide AllTypeActions, Drops;
    TypeActionsRemoveNothing(desired, actual, snap, |desired.keys|);
    DropsMeaning(desired, actual, ignored, |actual.keys|);
    assert actual.keys[..|actual.keys|] == actual.keys;
    forall name ensures Removes(DropType(name)) {}
  }

  /** A type the applied overrides created, and did not drop or rename away since, is never
      dropped; `owned` is what the ownership scan gives for the applied statement lists. */
  lemma OwnedTypesSurvive(desired: Schema, actual: Schema, snap: Option<Snapshot>, strategy: DropStrategy,
                          lists: seq<seq<string>>, owned: set<string>, name: string)
    requires ValidSchema(desired) && ValidSchema(actual)
    requires forall n :: n in owned <==> Classification.LeftBehind(Classification.Flatten(lists), n)
    ensures var dropped := DropType(name) in Diff(desired, actual, snap, strategy, owned);
            && (Classification.LeftBehind(Classification.Flatten(lists), name) ==> !dropped)
            && (dropped ==> strategy.Explicit? && name in actual.at && name !in desired.at)
  {
    hide Diff, Classification.LeftBehind, Classification.Flatten;
    DropsExactlyTheUnowned(desired, actual, snap, strategy, owned);
    assert Removes(DropType(name));
  }
}
