/** Declarations read into a schema, file by file: what the parser can and cannot build. */
module SchemaParsing {
  import opened Text
  import opened SchemaModel
  import opened SchemaDiff
  import opened SchemaConformance
  import opened SchemaConvergence
  import opened SchemaDefaults

  /** A parsed statement. A property is declared by its qualified name, still to be split. */
  datatype Declaration =
    | DeclareType(name: string, kind: TypeKind, supers: seq<string>)
    | DeclareTimeseries(name: string, columns: seq<(string, string)>)
    | DeclareProperty(qualified: string, declared: Property)
    | DeclareIndex(name: string, index: Index)

  /** `split_once('.')`: at the first dot, if there is one. */
  function SplitOnce(qualified: string): (r: Option<(string, string)>)
    ensures r.Some? ==> '.' !in r.value.0 && qualified == DefaultKey(r.value.0, r.value.1)
    ensures r.None? <==> '.' !in qualified
  {
    var n := FirstDot(qualified);
    FirstDotSplits(qualified);
    if n == |qualified| then None else Some((qualified[..n], qualified[n + 1..]))
  }

  lemma {:induction false} FirstDotSplits(s: string)
    ensures FirstDot(s) <= |s| && '.' !in s[..FirstDot(s)]
    ensures FirstDot(s) < |s| ==> s[FirstDot(s)] == '.'
  {
    if s != [] && s[0] != '.' {
      FirstDotSplits(s[1..]);
      assert s[..FirstDot(s)] == [s[0]] + s[1..][..FirstDot(s[1..])];
    }
  }

  /** The type of that name, inserted empty when it is not there yet. */
  function TypeOr(s: Schema, name: string, kind: TypeKind): Type {
    if name in s.at then s.at[name] else Type(kind, [], Table([], map[]), [])
  }

  function WithColumns(t: Type, columns: seq<(string, string)>): Type {
    if columns == [] then t
    else
      var before := WithColumns(t, columns[..|columns| - 1]);
      var c := columns[|columns| - 1];
      before.(properties := Put(before.properties, c.0, Property(c.1, {}, map[], None)))
  }

  /** One statement; a property without a qualified name is an error. */
  function Declare(s: Schema, d: Declaration): Option<Schema> {
    match d
    case DeclareType(name, kind, supers) => Some(Put(s, name, TypeOr(s, name, kind).(supers := supers)))
    case DeclareTimeseries(name, columns) => Some(Put(s, name, WithColumns(TypeOr(s, name, Timeseries), columns)))
    case DeclareProperty(qualified, p) =>
      var q := SplitOnce(qualified);
      if q.None? then None
      else
        var t := TypeOr(s, q.value.0, Document);
        Some(Put(s, q.value.0, t.(properties := Put(t.properties, q.value.1, p))))
    case DeclareIndex(name, index) =>
      var t := TypeOr(s, name, Document);
      Some(Put(s, name, t.(indexes := t.indexes + [index])))
  }

  function Parsed(declarations: seq<Declaration>): Option<Schema> {
    if declarations == [] then Some(Table([], map[]))
    else
      var before := Parsed(declarations[..|declarations| - 1]);
      if before.None? then None else Declare(before.value, declarations[|declarations| - 1])
  }

  /** The properties of one more file: later declarations win. */
  function MergedProperties(dst: Table<Property>, src: Table<Property>, n: nat): Table<Property>
    requires src.Valid() && n <= |src.keys|
  {
    if n == 0 then dst
    else
      var key := src.keys[n - 1];
      Put(MergedProperties(dst, src, n - 1), key, src.at[key])
  }

  /** One more file: a new type comes whole, a known one gains properties and indexes. */
  function Merged(dst: Schema, src: Schema, n: nat): Schema
    requires ValidSchema(src) && n <= |src.keys|
  {
    if n == 0 then dst
    else
      var before := Merged(dst, src, n - 1);
      var name := src.keys[n - 1];
      assert name in src.keys;
      var t := src.at[name];
      if name !in before.at then Put(before, name, t)
      else
        var d := before.at[name];
        Put(before, name, d.(properties := MergedProperties(d.properties, t.properties, |t.properties.keys|),
                             indexes := d.indexes + t.indexes))
  }

  method Merge(dst: Schema, src: Schema) returns (out: Schema)
    requires ValidSchema(src)
    ensures out == Merged(dst, src, |src.keys|)
  {
    hide MergedProperties, Put;
    out := dst;
    for i := 0 to |src.keys|
      invariant out == Merged(dst, src, i)
    {
      var name := src.keys[i];
      assert name in src.keys;
      var t := src.at[name];
      if name in out.at {
        var d := out.at[name];
        var properties := MergeProperties(d.properties, t.properties);
        out := Put(out, name, d.(properties := properties, indexes := d.indexes + t.indexes));
      } else {
        out := Put(out, name, t);
      }
    }
  }

  method MergeProperties(dst: Table<Property>, src: Table<Property>) returns (out: Table<Property>)
    requires src.Valid()
    ensures out == MergedProperties(dst, src, |src.keys|)
  {
    out := dst;
    for i := 0 to |src.keys|
      invariant out == MergedProperties(dst, src, i)
    {
      out := Put(out, src.keys[i], src.at[src.keys[i]]);
    }
  }

  /** A schema directory: every file parsed, merged in file order. */
  ghost function SchemaOf(files: seq<seq<Declaration>>): Option<Schema>
    ensures SchemaOf(files).Some? ==> ValidSchema(SchemaOf(files).value) && DotFree(SchemaOf(files).value)
  {
    if files == [] then Some(Table([], map[]))
    else
      var before, last := SchemaOf(files[..|files| - 1]), Parsed(files[|files| - 1]);
      if before.None? || last.None? then None
      else
        ParsedIsSound(files[|files| - 1]);
        MergedIsSound(before.value, last.value, |last.value.keys|);
        Some(Merged(before.value, last.value, |last.value.keys|))
  }

  // ----- what can be declared -----

  ghost predicate SoundType(name: string, t: Type) {
    t.properties.Valid() && forall p | p in t.properties.at && t.properties.at[p].default.Some? :: '.' !in name
  }

  lemma SoundSchema(s: Schema)
    ensures ValidSchema(s) && DotFree(s) <==> s.Valid() && forall n | n in s.at :: SoundType(n, s.at[n])
  {
    if ValidSchema(s) && DotFree(s) {
      forall n | n in s.at ensures SoundType(n, s.at[n]) {}
    }
    if s.Valid() && forall n | n in s.at :: SoundType(n, s.at[n]) {
      forall n | n in s.at ensures s.at[n].properties.Valid() { assert SoundType(n, s.at[n]); }
      forall t, p | t in s.at && p in s.at[t].properties.at && s.at[t].properties.at[p].default.Some? ensures '.' !in t {
        assert SoundType(t, s.at[t]);
      }
    }
  }

  lemma PutIsSound(s: Schema, name: string, t: Type)
    requires ValidSchema(s) && DotFree(s) && SoundType(name, t)
    ensures ValidSchema(Put(s, name, t)) && DotFree(Put(s, name, t))
  {
    hide SoundType;
    SoundSchema(s);
    SoundSchema(Put(s, name, t));
  }

  lemma {:induction false} ColumnsAreSound(name: string, t: Type, columns: seq<(string, string)>)
    requires SoundType(name, t)
    ensures SoundType(name, WithColumns(t, columns))
  {
    if columns != [] { ColumnsAreSound(name, t, columns[..|columns| - 1]); }
  }

  lemma TypeOrIsSound(s: Schema, name: string, kind: TypeKind)
    requires ValidSchema(s) && DotFree(s)
    ensures SoundType(name, TypeOr(s, name, kind))
  {
  }

  lemma DeclareIsSound(s: Schema, d: Declaration)
    requires ValidSchema(s) && DotFree(s) && Declare(s, d).Some?
    ensures ValidSchema(Declare(s, d).value) && DotFree(Declare(s, d).value)
  {
    hide ValidSchema, DotFree, Put;
    match d
    case DeclareType(name, kind, supers) =>
      TypeOrIsSound(s, name, kind);
      PutIsSound(s, name, TypeOr(s, name, kind).(supers := supers));
    case DeclareTimeseries(name, columns) =>
      TypeOrIsSound(s, name, Timeseries);
      ColumnsAreSound(name, TypeOr(s, name, Timeseries), columns);
      PutIsSound(s, name, WithColumns(TypeOr(s, name, Timeseries), columns));
    case DeclareProperty(qualified, p) =>
      var q := SplitOnce(qualified).value;
      TypeOrIsSound(s, q.0, Document);
      var t := TypeOr(s, q.0, Document);
      PutIsSound(s, q.0, t.(properties := Put(t.properties, q.1, p)));
    case DeclareIndex(name, index) =>
      TypeOrIsSound(s, name, Document);
      var t := TypeOr(s, name, Document);
      PutIsSound(s, name, t.(indexes := t.indexes + [index]));
  }

  lemma {:induction false} ParsedIsSound(declarations: seq<Declaration>)
    ensures Parsed(declarations).Some? ==> ValidSchema(Parsed(declarations).value) && DotFree(Parsed(declarations).value)
  {
    hide Declare;
    if declarations != [] {
      ParsedIsSound(declarations[..|declarations| - 1]);
      var before := Parsed(declarations[..|declarations| - 1]);
      var last := declarations[|declarations| - 1];
      if before.Some? && Declare(before.value, last).Some? { DeclareIsSound(before.value, last); }
    }
  }

  lemma {:induction false} MergedPropertiesAreSound(name: string, d: Type, t: Type, n: nat)
    requires SoundType(name, d) && SoundType(name, t) && n <= |t.properties.keys|
    ensures SoundType(name, d.(properties := MergedProperties(d.properties, t.properties, n)))
  {
    if n > 0 { MergedPropertiesAreSound(name, d, t, n - 1); }
  }

  lemma {:induction false} MergedIsSound(dst: Schema, src: Schema, n: nat)
    requires ValidSchema(dst) && DotFree(dst) && ValidSchema(src) && DotFree(src) && n <= |src.keys|
    ensures ValidSchema(Merged(dst, src, n)) && DotFree(Merged(dst, src, n))
  {
    hide DotFree, SoundType, MergedProperties, Put;
    if n > 0 {
      MergedIsSound(dst, src, n - 1);
      var before, name := Merged(dst, src, n - 1), src.keys[n - 1];
      assert name in src.keys;
      SoundSchema(src);
      SoundSchema(before);
      var t := src.at[name];
      if name !in before.at {
        PutIsSound(before, name, t);
      } else {
        var d := before.at[name];
        MergedPropertiesAreSound(name, d, t, |t.properties.keys|);
        IndexesDoNotMatter(name, d.(properties := MergedProperties(d.properties, t.properties, |t.properties.keys|)),
            d.indexes + t.indexes);
        PutIsSound(before, name, d.(properties := MergedProperties(d.properties, t.properties, |t.properties.keys|),
                                    indexes := d.indexes + t.indexes));
      }
    }
  }

  lemma IndexesDoNotMatter(name: string, t: Type, indexes: seq<Index>)
    requires SoundType(name, t)
    ensures SoundType(name, t.(indexes := indexes))
  {
  }

  /** The database kept a value for every declared default of a type the diff reconciles. */
  ghost predicate DefaultsHeld(desired: Schema, s: Schema) {
    forall t, p | t in desired.at && t in s.at && !Skipped(desired.at[t], s.at[t])
                  && p in desired.at[t].properties.at && desired.at[t].properties.at[p].default.Some? ::
      p in s.at[t].properties.at && s.at[t].properties.at[p].default.Some?
  }

  /** Convergence for every schema that can be read from a directory: the parser splits a
      property's qualified name at its first dot, so recorded default texts never share a key,
      and a second diff renders nothing exactly when the database kept a value for every declared
      default, however expression defaults came out in between. */
  lemma ParsedSchemasConvergeIff(files: seq<seq<Declaration>>, db: Database, actual: Schema, snap: Option<Snapshot>,
      strategy: DropStrategy, ignored: set<string>, again: Schema)
    requires SchemaOf(files).Some? && ValidSchema(actual) && ValidSchema(again)
    requires Reread(SchemaOf(files).value,
                    ApplyActions(db, actual, Diff(SchemaOf(files).value, actual, snap, strategy, ignored)), again)
    ensures var desired := SchemaOf(files).value;
            var s := ApplyActions(db, actual, Diff(desired, actual, snap, strategy, ignored));
            Rendered(Diff(desired, again, Some(Recorded(desired, s)), strategy, ignored)) == [] <==> DefaultsHeld(desired, s)
  {
    hide Diff, Recorded, Rendered, SchemaOf, Reread, DotFree, ReadsBack, ValidSchema;
    var desired := SchemaOf(files).value;
    forall t, p | t in desired.at && p in desired.at[t].properties.at && desired.at[t].properties.at[p].default.Some?
      ensures ReadsBack(desired, t, p)
    {
      DotFreeReadsBack(desired, t, p);
    }
    DiffConverges(db, desired, actual, snap, strategy, ignored, again);
  }
}
