/** When the default texts a sync records settle the next diff. */
module SchemaDefaults {
  import opened Text
  import opened SchemaModel
  import opened SchemaDiff
  import opened SchemaConformance
  import opened SchemaConvergence

  // ----- when defaults are kept -----

  function FirstDot(s: string): nat {
    if s == [] || s[0] == '.' then 0 else 1 + FirstDot(s[1..])
  }

  lemma {:induction false} FirstDotOfKey(t: string, rest: string)
    requires '.' !in t
    ensures FirstDot(t + "." + rest) == |t|
  {
    if t != [] {
      assert (t + "." + rest)[1..] == t[1..] + "." + rest;
      FirstDotOfKey(t[1..], rest);
    }
  }

  lemma KeyInjective(t: string, p: string, t': string, p': string)
    requires '.' !in t && '.' !in t' && DefaultKey(t, p) == DefaultKey(t', p')
    ensures t == t' && p == p'
  {
    FirstDotOfKey(t, p);
    FirstDotOfKey(t', p');
    var k := DefaultKey(t, p);
    assert k[..|t|] == t && k[..|t'|] == t';
    assert k[|t| + 1..] == p && k[|t'| + 1..] == p';
  }

  /** Types that declare a default have names without dots. */
  ghost predicate DotFree(desired: Schema) {
    forall t, p | t in desired.at && p in desired.at[t].properties.at && desired.at[t].properties.at[p].default.Some? ::
      '.' !in t
  }

  lemma {:induction false} DefaultsOfTypeRead(desired: Schema, t0: string, out: map<string, string>, n: nat,
      t: string, p: string)
    requires ValidSchema(desired) && DotFree(desired) && t0 in desired.at && n <= |desired.at[t0].properties.keys|
    requires t in desired.at && p in desired.at[t].properties.at && desired.at[t].properties.at[p].default.Some?
    ensures var d := desired.at[t0].properties;
            var r := DefaultsOfType(t0, d, out, n);
            var key := DefaultKey(t, p);
            if t == t0 && p in d.keys[..n] then key in r && r[key] == d.at[p].default.value
            else (key in r <==> key in out) && (key in out ==> r[key] == out[key])
  {
    hide DefaultKey;
    var d := desired.at[t0].properties;
    if n > 0 {
      var q := d.keys[n - 1];
      DefaultsOfTypeRead(desired, t0, out, n - 1, t, p);
      assert d.keys[..n] == d.keys[..n - 1] + [q];
      assert q !in d.keys[..n - 1];
      assert q in d.at;
      if DefaultKey(t, p) == DefaultKey(t0, q) && d.at[q].default.Some? {
        assert t == t0 && p == q by { KeyInjective(t, p, t0, q); }
      }
    }
  }

  lemma {:induction false} DefaultExprsRead(desired: Schema, n: nat, t: string, p: string)
    requires ValidSchema(desired) && DotFree(desired) && n <= |desired.keys|
    requires t in desired.at && p in desired.at[t].properties.at && desired.at[t].properties.at[p].default.Some?
    ensures var exprs := DefaultExprs(desired, n);
            var key := DefaultKey(t, p);
            (if key in exprs then Some(exprs[key]) else None) ==
            if t in desired.keys[..n] then desired.at[t].properties.at[p].default else None
  {
    hide DefaultKey, DefaultsOfType, ValidSchema, DotFree;
    if n > 0 {
      var t0 := desired.keys[n - 1];
      DeclaredType(desired, n);
      DefaultExprsRead(desired, n - 1, t, p);
      var d := desired.at[t0].properties;
      assert t == t0 ==> p in d.keys by { WholeTable(d, p); }
      DefaultsOfTypeRead(desired, t0, DefaultExprs(desired, n - 1), |d.keys|, t, p);
      assert d.keys[..|d.keys|] == d.keys;
    }
  }

  lemma WholeTable<V>(d: Table<V>, p: string)
    requires d.Valid()
    ensures p in d.keys <==> p in d.at
  {
  }

  /** Dot-free type names keep the recorded default texts apart. */
  lemma DotFreeReadsBack(desired: Schema, t: string, p: string)
    requires ValidSchema(desired) && DotFree(desired)
    requires t in desired.at && p in desired.at[t].properties.at && desired.at[t].properties.at[p].default.Some?
    ensures ReadsBack(desired, t, p)
  {
    DefaultExprsRead(desired, |desired.keys|, t, p);
    assert desired.keys[..|desired.keys|] == desired.keys;
  }

  /** The database gives every declared default a value. */
  ghost predicate Resolves(db: Database, desired: Schema) {
    forall t, p | t in desired.at && p in desired.at[t].properties.at && desired.at[t].properties.at[p].default.Some? ::
      db.resolve(t, p, desired.at[t].properties.at[p].default.value).Some?
  }

  lemma SettledKeepsDefault(db: Database, t: string, p: string, d: Property, a: map<string, Property>,
      snap: Option<Snapshot>)
    requires d.default.Some? && db.resolve(t, p, d.default.value).Some?
    ensures SettledProperty(db, t, p, d, a, snap).default.Some?
  {
  }

  /** A type the diff reconciled holds a value for each of its declared defaults. */
  lemma SettledHoldsDefault(db: Database, t: string, d: Type, before: Option<Type>, after: Type, snap: Option<Snapshot>,
      p: string)
    requires d.properties.Valid() && TypeSettles(db, t, d, before, after, snap) && !Skipped(d, after)
    requires p in d.properties.at && d.properties.at[p].default.Some?
    requires db.resolve(t, p, d.properties.at[p].default.value).Some?
    ensures p in after.properties.at && after.properties.at[p].default.Some?
  {
    hide SettledProperty, SettledUpTo, HasIndex, SameNames;
    var was := if before.Some? then before.value.properties.at else map[];
    var keys := d.properties.keys;
    SettledUpToAt(db, t, d.properties, was, snap, |keys|, p);
    assert keys[..|keys|] == keys && p in keys;
    SettledKeepsDefault(db, t, p, d.properties.at[p], was, snap);
  }

  /** The usual case: dot-free names and a database that keeps every default. The second diff has
      nothing to render, however expression defaults came out in between. */
  lemma DotFreeSchemasConverge(db: Database, desired: Schema, actual: Schema, snap: Option<Snapshot>,
      strategy: DropStrategy, ignored: set<string>, again: Schema)
    requires ValidSchema(desired) && ValidSchema(actual) && ValidSchema(again)
    requires DotFree(desired) && Resolves(db, desired)
    requires Reread(desired, ApplyActions(db, actual, Diff(desired, actual, snap, strategy, ignored)), again)
    ensures var s := ApplyActions(db, actual, Diff(desired, actual, snap, strategy, ignored));
            Rendered(Diff(desired, again, Some(Recorded(desired, s)), strategy, ignored)) == []
  {
    hide Diff, ReadsBack, TypeSettles, Recorded, Rendered, DotFree, Reread, ApplyActions;
    var s := ApplyActions(db, actual, Diff(desired, actual, snap, strategy, ignored));
    DiffApplied(db, desired, actual, snap, strategy, ignored);
    forall t, p | t in desired.at && t in s.at && !Skipped(desired.at[t], s.at[t])
                  && p in desired.at[t].properties.at && desired.at[t].properties.at[p].default.Some?
      ensures p in s.at[t].properties.at && s.at[t].properties.at[p].default.Some? && ReadsBack(desired, t, p)
    {
      DotFreeReadsBack(desired, t, p);
      SettledHoldsDefault(db, t, desired.at[t], Standing(actual, t), s.at[t], snap, p);
    }
    DiffConverges(db, desired, actual, snap, strategy, ignored, again);
  }
}
