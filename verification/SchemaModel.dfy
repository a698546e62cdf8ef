/** The schema model and the reconciliation actions of the diff engine. */
module SchemaModel {
  import opened Text

  /** A name-indexed table with an iteration order. The program iterates by name; nothing below
      depends on which order it is. */
  datatype Table<V> = Table(keys: seq<string>, at: map<string, V>) {
    ghost predicate Valid() {
      && (forall k :: k in keys <==> k in at)
      && NoDuplicates(keys)
    }
  }

  ghost predicate NoDuplicates(keys: seq<string>) {
    forall i, j | 0 <= i < j < |keys| :: keys[i] != keys[j]
  }

  function Put<V>(t: Table<V>, key: string, v: V): (r: Table<V>)
    ensures t.Valid() ==> r.Valid()
    ensures r.at == t.at[key := v]
  {
    Table(if key in t.at then t.keys else t.keys + [key], t.at[key := v])
  }

  function RemoveKey(keys: seq<string>, key: string): (r: seq<string>)
    ensures forall k :: k in r <==> k in keys && k != key
    ensures NoDuplicates(keys) ==> NoDuplicates(r)
  {
    if keys == [] then []
    else if keys[0] == key then RemoveKey(keys[1..], key)
    else
      assert NoDuplicates(keys) ==> NoDuplicates(keys[1..]) && keys[0] !in keys[1..];
      [keys[0]] + RemoveKey(keys[1..], key)
  }

  function Remove<V>(t: Table<V>, key: string): (r: Table<V>)
    ensures t.Valid() ==> r.Valid()
    ensures r.at == t.at - {key}
  {
    Table(RemoveKey(t.keys, key), t.at - {key})
  }

  datatype TypeKind = Document | Vertex | Edge | Timeseries

  datatype Flag = Mandatory | NotNull | ReadOnly | External

  datatype Bound = Min | Max | Regexp

  /** A property: its data type, its boolean constraints, its string constraints, and its
      default (source text on the desired side, the stored value on the actual side). */
  datatype Property = Property(
    typeName: string,
    flags: set<Flag>,
    bounds: map<Bound, string>,
    default: Option<string>)

  datatype IndexKind = Unique | NotUnique | FullText | Geospatial | Hnsw | LsmVector | LsmSparseVector

  datatype Index = Index(name: Option<string>, columns: seq<string>, kind: IndexKind)

  datatype Type = Type(kind: TypeKind, supers: seq<string>, properties: Table<Property>, indexes: seq<Index>)

  type Schema = Table<Type>

  ghost predicate ValidSchema(s: Schema) {
    s.Valid() && forall n | n in s.at :: s.at[n].properties.Valid()
  }

  /** The recorded applied state: the introspected schema, and the default texts applied then,
      keyed by `type.property`. */
  datatype Snapshot = Snapshot(state: Schema, defaultExprs: map<string, string>)

  function DefaultKey(typeName: string, property: string): string {
    typeName + "." + property
  }

  function ResolvedDefault(snap: Snapshot, typeName: string, property: string): Option<string> {
    if typeName in snap.state.at && property in snap.state.at[typeName].properties.at then
      snap.state.at[typeName].properties.at[property].default
    else None
  }

  function AppliedDefaultExpr(snap: Snapshot, typeName: string, property: string): Option<string> {
    var key := DefaultKey(typeName, property);
    if key in snap.defaultExprs then Some(snap.defaultExprs[key]) else None
  }

  // ----- actions -----

  datatype Edit =
    | Retype(typeName: string)
    | SetFlag(flag: Flag, on: bool)
    | SetBound(bound: Bound, value: string)
    | SetDefault(expr: Option<string>)

  datatype Change =
    | CreateProperty(name: string, declared: Property)
    | CreateIndex(created: Index)
    | AlterSupers(add: seq<string>, remove: seq<string>)
    | Alter(property: string, edit: Edit)
    | DropProperty(dropped: string)
    | DropIndex(gone: Index)

  datatype Action =
    | CreateType(name: string, kind: TypeKind, supers: seq<string>)
    | Within(typeName: string, change: Change)
    | DropType(doomed: string)

  predicate IsRetype(a: Action) {
    a.Within? && a.change.Alter? && a.change.edit.Retype?
  }

  predicate IsDestructive(a: Action) {
    a.DropType? || (a.Within? && (a.change.DropProperty? || a.change.DropIndex?)) || IsRetype(a)
  }

  /** Whether an action takes a type, a property or an index away. */
  predicate Removes(a: Action) {
    a.DropType? || (a.Within? && (a.change.DropProperty? || a.change.DropIndex?))
  }

  /** Exactly the drops take something away. */
  lemma DropsRemove(t: string, name: string, p: Property, i: Index, add: seq<string>, e: Edit, kind: TypeKind)
    ensures Removes(DropType(t)) && Removes(Within(t, DropProperty(name))) && Removes(Within(t, DropIndex(i)))
    ensures !Removes(CreateType(t, kind, add)) && !Removes(Within(t, CreateProperty(name, p)))
    ensures !Removes(Within(t, CreateIndex(i))) && !Removes(Within(t, AlterSupers(add, add)))
    ensures !Removes(Within(t, Alter(name, e)))
    ensures forall a :: IsDestructive(a) <==> Removes(a) || IsRetype(a)
  {
  }

  datatype DropStrategy = Never | Explicit

  // ----- what actions do to a schema -----

  /** The database's part in an action: the value a default text resolves to (none when the text
      amounts to no default), and the name it gives an index created without one. */
  datatype Database = Database(resolve: (string, string, string) -> Option<string>, autoName: (string, seq<string>) -> string)

  function Resolve(db: Database, typeName: string, property: string, expr: Option<string>): Option<string> {
    if expr.Some? then db.resolve(typeName, property, expr.value) else None
  }

  function ApplyEdit(db: Database, typeName: string, property: string, p: Property, e: Edit): Property {
    match e
    case Retype(_) => p
    case SetFlag(f, on) => p.(flags := if on then p.flags + {f} else p.flags - {f})
    case SetBound(b, v) => p.(bounds := p.bounds[b := v])
    case SetDefault(expr) => p.(default := Resolve(db, typeName, property, expr))
  }

  function ApplyChange(db: Database, typeName: string, t: Type, c: Change): Type {
    match c
    case CreateProperty(name, p) =>
      if name in t.properties.at then t
      else t.(properties := Put(t.properties, name, p.(default := Resolve(db, typeName, name, p.default))))
    case CreateIndex(i) =>
      t.(indexes := t.indexes + [i.(name := Some(if i.name.Some? then i.name.value else db.autoName(typeName, i.columns)))])
    case AlterSupers(add, remove) => t.(supers := Without(t.supers, remove) + add)
    case Alter(name, e) =>
      if name in t.properties.at then
        t.(properties := Put(t.properties, name, ApplyEdit(db, typeName, name, t.properties.at[name], e)))
      else t
    case DropProperty(name) => t.(properties := Remove(t.properties, name))
    case DropIndex(_) => t
  }

  function Without(s: seq<string>, gone: seq<string>): (r: seq<string>)
    ensures forall x :: x in r <==> x in s && x !in gone
  {
    if s == [] then []
    else (if s[0] in gone then [] else [s[0]]) + Without(s[1..], gone)
  }

  function ApplyAction(db: Database, s: Schema, a: Action): Schema {
    match a
    case CreateType(name, kind, supers) =>
      if name in s.at then s else Put(s, name, Type(kind, supers, Table([], map[]), []))
    case Within(name, change) =>
      if name in s.at then Put(s, name, ApplyChange(db, name, s.at[name], change)) else s
    case DropType(name) => Remove(s, name)
  }

  /** Dropping a type or a property takes it away and nothing else. */
  lemma DropTakesAway(db: Database, s: Schema, name: string, property: string)
    requires ValidSchema(s) && name in s.at
    ensures ApplyAction(db, s, DropType(name)).at == s.at - {name}
    ensures var t := ApplyAction(db, s, Within(name, DropProperty(property)));
            && name in t.at && t.at[name].properties.at == s.at[name].properties.at - {property}
            && t.at - {name} == s.at - {name}
  {
  }

  function ApplyActions(db: Database, s: Schema, actions: seq<Action>): Schema {
    if actions == [] then s
    else ApplyAction(db, ApplyActions(db, s, actions[..|actions| - 1]), actions[|actions| - 1])
  }
}
