/** The diff engine: the actions that reconcile an actual schema toward a desired one. */
module SchemaDiff {
  import opened Text
  import opened SchemaModel

  const FLAGS := [Mandatory, NotNull, ReadOnly, External]

  const BOUNDS := [Min, Max, Regexp]

  predicate IsExpression(text: string) {
    '(' in text
  }

  // ----- the actions, as functions -----

  function Edits(typeName: string, property: string, edits: seq<Edit>): (r: seq<Action>)
    ensures |r| == |edits| && forall i | 0 <= i < |r| :: r[i] == Within(typeName, Alter(property, edits[i]))
  {
    seq(|edits|, i requires 0 <= i < |edits| => Within(typeName, Alter(property, edits[i])))
  }

  function FlagEdits(d: Property, a: Property, n: nat): seq<Edit>
    requires n <= |FLAGS|
  {
    if n == 0 then []
    else
      var f := FLAGS[n - 1];
      FlagEdits(d, a, n - 1) + (if (f in d.flags) != (f in a.flags) then [SetFlag(f, f in d.flags)] else [])
  }

  /** A bound that is set and differs is altered; one the desired side dropped is left alone,
      since the engine has no unset form for it. */
  function BoundEdits(d: Property, a: Property, n: nat): seq<Edit>
    requires n <= |BOUNDS|
  {
    if n == 0 then []
    else
      var b := BOUNDS[n - 1];
      BoundEdits(d, a, n - 1)
      + (if b in d.bounds && !(b in a.bounds && a.bounds[b] == d.bounds[b]) then [SetBound(b, d.bounds[b])] else [])
  }

  /** Three-way reconciliation of a default that both sides have. */
  predicate DefaultNeedsApply(typeName: string, property: string, text: string, actual: Option<string>,
      snap: Option<Snapshot>) {
    && snap.Some?
    && var resolved := ResolvedDefault(snap.value, typeName, property);
       || (!IsExpression(text) && (resolved.None? || actual != resolved))
       || AppliedDefaultExpr(snap.value, typeName, property) != Some(text)
  }

  function DefaultEdits(typeName: string, property: string, d: Property, a: Property,
      snap: Option<Snapshot>): seq<Edit> {
    match (d.default, a.default)
    case (Some(text), None) => [SetDefault(Some(text))]
    case (None, Some(_)) => [SetDefault(None)]
    case (Some(text), Some(_)) =>
      if DefaultNeedsApply(typeName, property, text, a.default, snap) then [SetDefault(Some(text))] else []
    case (None, None) => []
  }

  function PropertyEdits(typeName: string, property: string, d: Property, a: Property,
      snap: Option<Snapshot>): seq<Edit> {
    (if d.typeName != a.typeName then [Retype(d.typeName)] else [])
    + FlagEdits(d, a, |FLAGS|) + BoundEdits(d, a, |BOUNDS|) + DefaultEdits(typeName, property, d, a, snap)
  }

  function PropertyActions(typeName: string, property: string, d: Property, a: Table<Property>,
      snap: Option<Snapshot>): seq<Action> {
    if property in a.at then Edits(typeName, property, PropertyEdits(typeName, property, d, a.at[property], snap))
    else [Within(typeName, CreateProperty(property, d))]
  }

  function PropertiesActions(typeName: string, d: Table<Property>, a: Table<Property>, snap: Option<Snapshot>,
      n: nat): seq<Action>
    requires d.Valid() && n <= |d.keys|
  {
    if n == 0 then []
    else
      var p := d.keys[n - 1];
      PropertiesActions(typeName, d, a, snap, n - 1) + PropertyActions(typeName, p, d.at[p], a, snap)
  }

  function SupersActions(typeName: string, d: seq<string>, a: seq<string>): seq<Action> {
    var add, remove := Without(d, a), Without(a, d);
    if add == [] && remove == [] then [] else [Within(typeName, AlterSupers(add, remove))]
  }

  predicate IndexesMatch(a: Index, b: Index) {
    if a.name.Some? && b.name.Some? then a.name == b.name else a.columns == b.columns && a.kind == b.kind
  }

  predicate HasIndex(have: seq<Index>, want: Index) {
    exists i | 0 <= i < |have| :: IndexesMatch(have[i], want)
  }

  function IndexesActions(typeName: string, d: seq<Index>, a: seq<Index>, n: nat): seq<Action>
    requires n <= |d|
  {
    if n == 0 then []
    else IndexesActions(typeName, d, a, n - 1) + (if HasIndex(a, d[n - 1]) then [] else [Within(typeName, CreateIndex(d[n - 1]))])
  }

  function TypeActions(name: string, d: Type, actual: Schema, snap: Option<Snapshot>): seq<Action>
    requires d.properties.Valid()
  {
    if name !in actual.at then
      [CreateType(name, d.kind, d.supers)]
      + (if d.kind.Timeseries? then []
         else PropertiesActions(name, d.properties, Table([], map[]), snap, |d.properties.keys|)
              + IndexesActions(name, d.indexes, [], |d.indexes|))
    else if d.kind.Timeseries? || actual.at[name].kind.Timeseries? then []
    else
      var a := actual.at[name];
      SupersActions(name, d.supers, a.supers)
      + PropertiesActions(name, d.properties, a.properties, snap, |d.properties.keys|)
      + IndexesActions(name, d.indexes, a.indexes, |d.indexes|)
  }

  function AllTypeActions(desired: Schema, actual: Schema, snap: Option<Snapshot>, n: nat): seq<Action>
    requires ValidSchema(desired) && n <= |desired.keys|
  {
    if n == 0 then []
    else
      var name := desired.keys[n - 1];
      AllTypeActions(desired, actual, snap, n - 1) + TypeActions(name, desired.at[name], actual, snap)
  }

  function Drops(desired: Schema, actual: Schema, ignored: set<string>, n: nat): seq<Action>
    requires n <= |actual.keys|
  {
    if n == 0 then []
    else
      var name := actual.keys[n - 1];
      Drops(desired, actual, ignored, n - 1) + (if name in desired.at || name in ignored then [] else [DropType(name)])
  }

  function Diff(desired: Schema, actual: Schema, snap: Option<Snapshot>, strategy: DropStrategy,
      ignored: set<string>): seq<Action>
    requires ValidSchema(desired)
  {
    AllTypeActions(desired, actual, snap, |desired.keys|)
    + (if strategy.Explicit? then Drops(desired, actual, ignored, |actual.keys|) else [])
  }

  // ----- the loops that emit them -----

  lemma EditsInOrder(typeName: string, property: string, d: Property, a: Property, snap: Option<Snapshot>)
    ensures var head := if d.typeName != a.typeName then [Retype(d.typeName)] else [];
            head + (FlagEdits(d, a, |FLAGS|) + BoundEdits(d, a, |BOUNDS|) + DefaultEdits(typeName, property, d, a, snap))
            == PropertyEdits(typeName, property, d, a, snap)
  {
    hide FlagEdits, BoundEdits, DefaultEdits;
  }

  method DiffConstraints(typeName: string, property: string, d: Property, a: Property,
      snap: Option<Snapshot>) returns (edits: seq<Edit>)
    ensures (if d.typeName != a.typeName then [Retype(d.typeName)] else []) + edits == PropertyEdits(typeName, property, d, a, snap)
  {
    hide DefaultNeedsApply;
    edits := [];
    for i := 0 to |FLAGS|
      invariant edits == FlagEdits(d, a, i)
    {
      var f := FLAGS[i];
      if (f in d.flags) != (f in a.flags) { edits := edits + [SetFlag(f, f in d.flags)]; }
    }
    for i := 0 to |BOUNDS|
      invariant edits == FlagEdits(d, a, |FLAGS|) + BoundEdits(d, a, i)
    {
      var b := BOUNDS[i];
      if b in d.bounds {
        if !(b in a.bounds && a.bounds[b] == d.bounds[b]) { edits := edits + [SetBound(b, d.bounds[b])]; }
      }
    }
    ghost var so := edits;
    match (d.default, a.default) {
      case (Some(text), None) => edits := edits + [SetDefault(Some(text))];
      case (None, Some(_)) => edits := edits + [SetDefault(None)];
      case (Some(text), Some(_)) =>
        if DefaultNeedsApply(typeName, property, text, a.default, snap) { edits := edits + [SetDefault(Some(text))]; }
      case (None, None) =>
    }
    assert edits == so + DefaultEdits(typeName, property, d, a, snap);
    EditsInOrder(typeName, property, d, a, snap);
  }

  method DiffProperty(typeName: string, p: string, want: Property, a: Table<Property>,
      snap: Option<Snapshot>) returns (actions: seq<Action>)
    ensures actions == PropertyActions(typeName, p, want, a, snap)
  {
    hide PropertyEdits;
    if p in a.at {
      var have := a.at[p];
      var edits := DiffConstraints(typeName, p, want, have, snap);
      if want.typeName != have.typeName { edits := [Retype(want.typeName)] + edits; }
      actions := Edits(typeName, p, edits);
    } else {
      actions := [Within(typeName, CreateProperty(p, want))];
    }
  }

  method DiffProperties(typeName: string, d: Table<Property>, a: Table<Property>,
      snap: Option<Snapshot>) returns (actions: seq<Action>)
    requires d.Valid()
    ensures actions == PropertiesActions(typeName, d, a, snap, |d.keys|)
  {
    hide PropertyActions;
    actions := [];
    for i := 0 to |d.keys|
      invariant actions == PropertiesActions(typeName, d, a, snap, i)
    {
      var more := DiffProperty(typeName, d.keys[i], d.at[d.keys[i]], a, snap);
      actions := actions + more;
    }
  }

  method DiffIndexes(typeName: string, d: seq<Index>, a: seq<Index>) returns (actions: seq<Action>)
    ensures actions == IndexesActions(typeName, d, a, |d|)
  {
    actions := [];
    for i := 0 to |d|
      invariant actions == IndexesActions(typeName, d, a, i)
    {
      if !HasIndex(a, d[i]) { actions := actions + [Within(typeName, CreateIndex(d[i]))]; }
    }
  }

  method DiffType(name: string, d: Type, actual: Schema, snap: Option<Snapshot>) returns (actions: seq<Action>)
    requires d.properties.Valid()
    ensures actions == TypeActions(name, d, actual, snap)
  {
    hide PropertiesActions, IndexesActions, SupersActions;
    if name !in actual.at {
      actions := [CreateType(name, d.kind, d.supers)];
      if !d.kind.Timeseries? {
        var props := DiffProperties(name, d.properties, Table([], map[]), snap);
        var indexes := DiffIndexes(name, d.indexes, []);
        actions := actions + (props + indexes);
      }
    } else if d.kind.Timeseries? || actual.at[name].kind.Timeseries? {
      actions := [];
    } else {
      var a := actual.at[name];
      var props := DiffProperties(name, d.properties, a.properties, snap);
      var indexes := DiffIndexes(name, d.indexes, a.indexes);
      actions := SupersActions(name, d.supers, a.supers) + props + indexes;
    }
  }

  method DiffWithSnapshot(desired: Schema, actual: Schema, snap: Option<Snapshot>, strategy: DropStrategy,
      ignored: set<string>)
    returns (actions: seq<Action>)
    requires ValidSchema(desired)
    ensures actions == Diff(desired, actual, snap, strategy, ignored)
  {
    hide TypeActions;
    actions := [];
    for i := 0 to |desired.keys|
      invariant actions == AllTypeActions(desired, actual, snap, i)
    {
      var name := desired.keys[i];
      var added := DiffType(name, desired.at[name], actual, snap);
      actions := actions + added;
    }
    if strategy.Explicit? {
      ghost var so := actions;
      for i := 0 to |actual.keys|
        invariant actions == so + Drops(desired, actual, ignored, i)
      {
        var name := actual.keys[i];
        if name !in desired.at && name !in ignored { actions := actions + [DropType(name)]; }
      }
    }
  }

  // ----- from actions to statements -----

  /** The actions the migrator renders, in order: all but the retypes, which become warnings. */
  function Rendered(actions: seq<Action>): seq<Action> {
    if actions == [] then []
    else Rendered(actions[..|actions| - 1]) + (if IsRetype(actions[|actions| - 1]) then [] else [actions[|actions| - 1]])
  }

  function Retypes(actions: seq<Action>): seq<Action> {
    if actions == [] then []
    else Retypes(actions[..|actions| - 1]) + (if IsRetype(actions[|actions| - 1]) then [actions[|actions| - 1]] else [])
  }

  datatype Statements = Statements(rendered: seq<Action>, warned: seq<Action>)

  /** The guard rails: retypes are warned about; any other destructive action is refused unless
      drops were asked for. It fails exactly when there is such an action, and names the first. */
  method ActionsToStatements(actions: seq<Action>, strategy: DropStrategy) returns (r: Result<Statements, Action>)
    ensures r.Ok? <==> strategy.Explicit? || forall a | a in actions :: !Removes(a)
    ensures r.Ok? ==> r.value == Statements(Rendered(actions), Retypes(actions))
    ensures r.Err? ==> r.error in actions && Removes(r.error)
  {
    var rendered, warned := [], [];
    for i := 0 to |actions|
      invariant rendered == Rendered(actions[..i]) && warned == Retypes(actions[..i])
      invariant strategy.Never? ==> forall j | 0 <= j < i :: !Removes(actions[j])
    {
      assert actions[..i + 1][..i] == actions[..i];
      var a := actions[i];
      if IsRetype(a) {
        warned := warned + [a];
      } else {
        if IsDestructive(a) && !strategy.Explicit? {
          assert a in actions;
          return Err(a);
        }
        rendered := rendered + [a];
      }
    }
    assert actions[..|actions|] == actions;
    return Ok(Statements(rendered, warned));
  }
}
