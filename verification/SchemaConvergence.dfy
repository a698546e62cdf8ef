/** Applying a diff and diffing again: what is left, whatever the database makes of defaults. */
module SchemaConvergence {
  import opened Text
  import opened SchemaModel
  import opened SchemaDiff
  import opened SchemaConformance

  // ----- what the edits of one property add up to -----

  function EditAll(db: Database, typeName: string, property: string, p: Property, edits: seq<Edit>): Property {
    if edits == [] then p
    else ApplyEdit(db, typeName, property, EditAll(db, typeName, property, p, edits[..|edits| - 1]), edits[|edits| - 1])
  }

  /** The property an existing one becomes: its data type stays, flags are the desired ones,
      desired bounds win, and the default is resolved anew if the diff asked for it. */
  function Edited(db: Database, typeName: string, property: string, d: Property, a: Property,
      snap: Option<Snapshot>): Property {
    Property(a.typeName, d.flags, a.bounds + d.bounds,
             if DefaultEdits(typeName, property, d, a, snap) == [] then a.default else Resolve(db, typeName, property, d.default))
  }

  lemma {:induction false} EditAllConcat(db: Database, t: string, n: string, p: Property, x: seq<Edit>, y: seq<Edit>)
    ensures EditAll(db, t, n, p, x + y) == EditAll(db, t, n, EditAll(db, t, n, p, x), y)
  {
    if y == [] {
      assert x + y == x;
    } else {
      assert (x + y)[..|x + y| - 1] == x + y[..|y| - 1];
      EditAllConcat(db, t, n, p, x, y[..|y| - 1]);
    }
  }

  predicate FlagsUpTo(d: Property, a: Property, r: Property, n: nat)
    requires n <= |FLAGS|
  {
    forall i | 0 <= i < |FLAGS| :: FLAGS[i] in r.flags <==> FLAGS[i] in (if i < n then d.flags else a.flags)
  }

  lemma {:induction false} FlagEditsApplied(db: Database, t: string, n: string, d: Property, a: Property, k: nat)
    requires k <= |FLAGS|
    ensures var r := EditAll(db, t, n, a, FlagEdits(d, a, k));
            r == a.(flags := r.flags) && FlagsUpTo(d, a, r, k)
  {
    hide EditAll;
    if k == 0 {
      EditNothing(db, t, n, a);
    } else {
      FlagEditsApplied(db, t, n, d, a, k - 1);
      var f := FLAGS[k - 1];
      var init := FlagEdits(d, a, k - 1);
      var r := EditAll(db, t, n, a, init);
      EditNothing(db, t, n, r);
      var last := if (f in d.flags) != (f in a.flags) then [SetFlag(f, f in d.flags)] else [];
      EditAllConcat(db, t, n, a, init, last);
      if last != [] { EditOne(db, t, n, r, last[0]); }
      var r' := EditAll(db, t, n, r, last);
      assert r' == r.(flags := r'.flags) && forall g :: g in r'.flags <==> if g == f then g in d.flags else g in r.flags by {
        assert f in r.flags <==> f in a.flags;
      }
      forall i | 0 <= i < |FLAGS| ensures FLAGS[i] in r'.flags <==> FLAGS[i] in (if i < k then d.flags else a.flags) {
        assert FLAGS[i] in r.flags <==> FLAGS[i] in (if i < k - 1 then d.flags else a.flags);
      }
    }
  }

  lemma AllFlagsApplied(db: Database, t: string, n: string, d: Property, a: Property)
    ensures EditAll(db, t, n, a, FlagEdits(d, a, |FLAGS|)) == a.(flags := d.flags)
  {
    FlagEditsApplied(db, t, n, d, a, |FLAGS|);
    var r := EditAll(db, t, n, a, FlagEdits(d, a, |FLAGS|));
    forall f ensures f in r.flags <==> f in d.flags {
      match f
      case Mandatory => assert FLAGS[0] == f;
      case NotNull => assert FLAGS[1] == f;
      case ReadOnly => assert FLAGS[2] == f;
      case External => assert FLAGS[3] == f;
    }
  }

  predicate BoundsUpTo(d: Property, a: Property, r: Property, n: nat)
    requires n <= |BOUNDS|
  {
    forall i | 0 <= i < |BOUNDS| :: BoundIs(if i < n && BOUNDS[i] in d.bounds then d else a, r, BOUNDS[i])
  }

  predicate BoundIs(p: Property, r: Property, b: Bound) {
    (b in r.bounds <==> b in p.bounds) && (b in p.bounds && b in r.bounds ==> r.bounds[b] == p.bounds[b])
  }

  lemma {:induction false} BoundEditsApplied(db: Database, t: string, n: string, d: Property, a: Property,
      p: Property, k: nat)
    requires k <= |BOUNDS| && p.bounds == a.bounds
    ensures var r := EditAll(db, t, n, p, BoundEdits(d, a, k));
            r == p.(bounds := r.bounds) && BoundsUpTo(d, a, r, k)
  {
    hide EditAll, BoundIs;
    EditNothing(db, t, n, p);
    if k == 0 {
      forall i | 0 <= i < |BOUNDS| ensures BoundIs(a, p, BOUNDS[i]) { BoundIsSelf(a, p, BOUNDS[i]); }
    } else {
      BoundEditsApplied(db, t, n, d, a, p, k - 1);
      var b := BOUNDS[k - 1];
      var init := BoundEdits(d, a, k - 1);
      var r := EditAll(db, t, n, p, init);
      EditNothing(db, t, n, r);
      var last := if b in d.bounds && !(b in a.bounds && a.bounds[b] == d.bounds[b]) then [SetBound(b, d.bounds[b])] else [];
      EditAllConcat(db, t, n, p, init, last);
      if last != [] { EditOne(db, t, n, r, last[0]); }
      forall i | 0 <= i < |BOUNDS|
        ensures BoundIs(if i < k && BOUNDS[i] in d.bounds then d else a, EditAll(db, t, n, r, last), BOUNDS[i])
      {
        assert BoundIs(if i < k - 1 && BOUNDS[i] in d.bounds then d else a, r, BOUNDS[i]);
        BoundMoves(d, a, r, b, BOUNDS[i], if i < k - 1 && BOUNDS[i] in d.bounds then d else a);
      }
    }
  }

  lemma BoundIsSelf(a: Property, p: Property, b: Bound)
    requires p.bounds == a.bounds
    ensures BoundIs(a, p, b)
  {
  }

  lemma BoundMoves(d: Property, a: Property, r: Property, b: Bound, c: Bound, was: Property)
    requires BoundIs(was, r, c)
    ensures b in d.bounds ==> BoundIs(if c == b then d else was, r.(bounds := r.bounds[b := d.bounds[b]]), c)
    ensures b in d.bounds && b in a.bounds && a.bounds[b] == d.bounds[b] && c == b && was == a ==> BoundIs(d, r, c)
  {
  }

  lemma EditNothing(db: Database, t: string, n: string, p: Property)
    ensures EditAll(db, t, n, p, []) == p
  {
  }

  lemma EditOne(db: Database, t: string, n: string, p: Property, e: Edit)
    ensures EditAll(db, t, n, p, [e]) == ApplyEdit(db, t, n, p, e)
  {
    assert [e][..0] == [];
  }

  lemma AllBoundsApplied(db: Database, t: string, n: string, d: Property, a: Property, p: Property)
    requires p.bounds == a.bounds
    ensures EditAll(db, t, n, p, BoundEdits(d, a, |BOUNDS|)) == p.(bounds := a.bounds + d.bounds)
  {
    BoundEditsApplied(db, t, n, d, a, p, |BOUNDS|);
    var r := EditAll(db, t, n, p, BoundEdits(d, a, |BOUNDS|));
    forall b ensures BoundIs(if b in d.bounds then d else a, r, b) {
      match b
      case Min => assert BOUNDS[0] == b;
      case Max => assert BOUNDS[1] == b;
      case Regexp => assert BOUNDS[2] == b;
    }
    assert r.bounds.Keys == (a.bounds + d.bounds).Keys by {
      forall b ensures b in r.bounds <==> b in a.bounds + d.bounds {
        assert BoundIs(if b in d.bounds then d else a, r, b);
      }
    }
    forall b | b in r.bounds ensures r.bounds[b] == (a.bounds + d.bounds)[b] {
      assert BoundIs(if b in d.bounds then d else a, r, b);
    }
  }

  lemma PropertyEditsApplied(db: Database, t: string, n: string, d: Property, a: Property, snap: Option<Snapshot>)
    ensures EditAll(db, t, n, a, PropertyEdits(t, n, d, a, snap)) == Edited(db, t, n, d, a, snap)
  {
    hide FlagEdits, BoundEdits, DefaultEdits;
    var r := if d.typeName != a.typeName then [Retype(d.typeName)] else [];
    var f, b, g := FlagEdits(d, a, |FLAGS|), BoundEdits(d, a, |BOUNDS|), DefaultEdits(t, n, d, a, snap);
    EditAllConcat(db, t, n, a, r + f + b, g);
    EditAllConcat(db, t, n, a, r + f, b);
    EditAllConcat(db, t, n, a, r, f);
    assert EditAll(db, t, n, a, r) == a by { if r != [] { assert r[..0] == []; } }
    AllFlagsApplied(db, t, n, d, a);
    AllBoundsApplied(db, t, n, d, a, a.(flags := d.flags));
    DefaultApplied(db, t, n, d, a, snap, a.(flags := d.flags, bounds := a.bounds + d.bounds));
  }

  lemma DefaultApplied(db: Database, t: string, n: string, d: Property, a: Property, snap: Option<Snapshot>,
      p: Property)
    ensures var g := DefaultEdits(t, n, d, a, snap);
            EditAll(db, t, n, p, g) == if g == [] then p else p.(default := Resolve(db, t, n, d.default))
  {
    var g := DefaultEdits(t, n, d, a, snap);
    if g != [] {
      assert |g| == 1 && g[..0] == [];
      assert EditAll(db, t, n, p, g) == ApplyEdit(db, t, n, EditAll(db, t, n, p, g[..0]), g[0]);
    }
  }

  // ----- what the actions on one type add up to -----

  lemma {:induction false} ApplyConcat(db: Database, s: Schema, x: seq<Action>, y: seq<Action>)
    ensures ApplyActions(db, s, x + y) == ApplyActions(db, ApplyActions(db, s, x), y)
  {
    if y == [] {
      assert x + y == x;
    } else {
      assert (x + y)[..|x + y| - 1] == x + y[..|y| - 1];
      ApplyConcat(db, s, x, y[..|y| - 1]);
    }
  }

  lemma ApplyNone(db: Database, s: Schema)
    ensures ApplyActions(db, s, []) == s
  {
  }

  lemma ApplyOne(db: Database, s: Schema, a: Action)
    ensures ApplyActions(db, s, [a]) == ApplyAction(db, s, a)
  {
    assert [a][..0] == [];
  }

  /** Only the entry of `name` differs, and both have it. */
  ghost predicate OnlyType(s: Schema, s': Schema, name: string) {
    name in s.at && name in s'.at && s'.at == s.at[name := s'.at[name]] && (ValidSchema(s) ==> ValidSchema(s'))
  }

  /** Only the properties differ. */
  ghost predicate OnlyProperties(t: Type, t': Type, at: map<string, Property>) {
    t'.properties.at == at && t' == t.(properties := t'.properties)
  }

  lemma {:induction false} EditsApplied(db: Database, s: Schema, name: string, p: string, edits: seq<Edit>)
    requires name in s.at && p in s.at[name].properties.at
    ensures var s' := ApplyActions(db, s, Edits(name, p, edits));
            var props := s.at[name].properties.at;
            OnlyType(s, s', name) && OnlyProperties(s.at[name], s'.at[name], props[p := EditAll(db, name, p, props[p], edits)])
  {
    hide ApplyEdit, ValidSchema;
    var props := s.at[name].properties.at;
    if edits == [] {
      assert props[p := props[p]] == props;
      OnlyTypeSelf(s, name);
    } else {
      var init := edits[..|edits| - 1];
      EditsApplied(db, s, name, p, init);
      assert Edits(name, p, edits)[..|edits| - 1] == Edits(name, p, init);
      var m := ApplyActions(db, s, Edits(name, p, init));
      var s' := ApplyActions(db, s, Edits(name, p, edits));
      assert s' == ApplyAction(db, m, Within(name, Alter(p, edits[|edits| - 1])));
      hide ApplyActions, EditAll;
      OneEditApplied(db, m, name, p, edits[|edits| - 1]);
      OnlyTypeChain(s, m, s', name);
      var before := props[p := EditAll(db, name, p, props[p], init)];
      var after := EditAll(db, name, p, props[p], edits);
      EditsOneMore(db, name, p, props[p], edits);
      assert before[p := after] == props[p := after];
    }
  }

  lemma EditsOneMore(db: Database, t: string, n: string, p: Property, edits: seq<Edit>)
    requires edits != []
    ensures EditAll(db, t, n, p, edits)
            == ApplyEdit(db, t, n, EditAll(db, t, n, p, edits[..|edits| - 1]), edits[|edits| - 1])
  {
    hide ApplyEdit;
  }

  lemma OneEditApplied(db: Database, m: Schema, name: string, p: string, edit: Edit)
    requires name in m.at && p in m.at[name].properties.at
    ensures var s' := ApplyAction(db, m, Within(name, Alter(p, edit)));
            var props := m.at[name].properties.at;
            && OnlyType(m, s', name)
            && OnlyProperties(m.at[name], s'.at[name], props[p := ApplyEdit(db, name, p, props[p], edit)])
  {
    hide ApplyEdit;
  }

  /** The properties after the diff's actions for the first `n` declared ones. */
  function SettledUpTo(db: Database, t: string, d: Table<Property>, a: map<string, Property>,
      snap: Option<Snapshot>, n: nat): map<string, Property>
    requires d.Valid() && n <= |d.keys|
  {
    if n == 0 then a
    else
      var p := d.keys[n - 1];
      SettledUpTo(db, t, d, a, snap, n - 1)[p := SettledProperty(db, t, p, d.at[p], a, snap)]
  }

  function SettledProperty(db: Database, t: string, p: string, d: Property, a: map<string, Property>,
      snap: Option<Snapshot>): Property {
    if p in a then Edited(db, t, p, d, a[p], snap) else d.(default := Resolve(db, t, p, d.default))
  }

  lemma {:induction false} SettledUpToAt(db: Database, t: string, d: Table<Property>, a: map<string, Property>,
      snap: Option<Snapshot>, n: nat, p: string)
    requires d.Valid() && n <= |d.keys|
    ensures var r := SettledUpTo(db, t, d, a, snap, n);
            if p in d.keys[..n] then p in d.at && p in r && r[p] == SettledProperty(db, t, p, d.at[p], a, snap)
            else (p in r <==> p in a) && (p in a ==> r[p] == a[p])
  {
    hide SettledProperty;
    if n > 0 {
      SettledUpToAt(db, t, d, a, snap, n - 1, p);
      TakeNext(d.keys, n);
      var key := d.keys[n - 1];
      assert key in d.keys;
      SettledNext(db, t, d, a, snap, n);
      hide SettledUpTo;
      var r := SettledUpTo(db, t, d, a, snap, n);
      assert p != key ==> (p in r <==> p in SettledUpTo(db, t, d, a, snap, n - 1));
    }
  }

  lemma SettledNext(db: Database, t: string, d: Table<Property>, a: map<string, Property>, snap: Option<Snapshot>, n: nat)
    requires d.Valid() && 0 < n <= |d.keys|
    ensures var key := d.keys[n - 1];
            && key in d.at
            && SettledUpTo(db, t, d, a, snap, n)
               == SettledUpTo(db, t, d, a, snap, n - 1)[key := SettledProperty(db, t, key, d.at[key], a, snap)]
  {
    hide SettledProperty;
  }

  /** One more declared property. */
  lemma PropertyApplied(db: Database, s: Schema, m: Schema, name: string, p: string, d: Property,
      a: Table<Property>, snap: Option<Snapshot>)
    requires OnlyType(s, m, name) && OnlyProperties(s.at[name], m.at[name], m.at[name].properties.at)
    requires p in a.at <==> p in m.at[name].properties.at
    requires p in a.at ==> m.at[name].properties.at[p] == a.at[p]
    ensures var s' := ApplyActions(db, m, PropertyActions(name, p, d, a, snap));
            && OnlyType(s, s', name)
            && OnlyProperties(s.at[name], s'.at[name], m.at[name].properties.at[p := SettledProperty(db, name, p, d, a.at, snap)])
  {
    hide PropertyEdits, Edited, ValidSchema;
    if p in a.at {
      hide ApplyActions, Edits, Resolve;
      EditsApplied(db, m, name, p, PropertyEdits(name, p, d, a.at[p], snap));
      PropertyEditsApplied(db, name, p, d, a.at[p], snap);
    } else {
      hide ApplyActions;
      PropertyCreated(db, m, name, p, d);
    }
    OnlyTypeChain(s, m, ApplyActions(db, m, PropertyActions(name, p, d, a, snap)), name);
  }

  lemma OnlyTypeChain(s: Schema, m: Schema, s': Schema, name: string)
    requires OnlyType(s, m, name) && OnlyType(m, s', name)
    ensures OnlyType(s, s', name)
  {
    hide ValidSchema;
    assert s.at[name := m.at[name]][name := s'.at[name]] == s.at[name := s'.at[name]];
  }

  lemma OnlyTypeSelf(s: Schema, name: string)
    requires name in s.at
    ensures OnlyType(s, s, name)
  {
    hide ValidSchema;
    assert s.at[name := s.at[name]] == s.at;
  }

  lemma PropertyCreated(db: Database, m: Schema, name: string, p: string, d: Property)
    requires name in m.at && p !in m.at[name].properties.at
    ensures var s' := ApplyActions(db, m, [Within(name, CreateProperty(p, d))]);
            var made := d.(default := Resolve(db, name, p, d.default));
            && OnlyType(m, s', name)
            && OnlyProperties(m.at[name], s'.at[name], m.at[name].properties.at[p := made])
  {
    hide Resolve;
    ApplyOne(db, m, Within(name, CreateProperty(p, d)));
  }

  lemma {:induction false} PropertiesApplied(db: Database, s: Schema, name: string, d: Table<Property>,
      a: Table<Property>, snap: Option<Snapshot>, n: nat)
    requires d.Valid() && n <= |d.keys| && name in s.at && s.at[name].properties.at == a.at
    ensures var s' := ApplyActions(db, s, PropertiesActions(name, d, a, snap, n));
            OnlyType(s, s', name) && OnlyProperties(s.at[name], s'.at[name], SettledUpTo(db, name, d, a.at, snap, n))
  {
    hide PropertyActions, SettledProperty, ApplyActions;
    if n == 0 {
      ApplyNone(db, s);
      assert s.at[name := s.at[name]] == s.at;
    } else {
      var p := d.keys[n - 1];
      PropertiesApplied(db, s, name, d, a, snap, n - 1);
      SettledUpToAt(db, name, d, a.at, snap, n - 1, p);
      var m := ApplyActions(db, s, PropertiesActions(name, d, a, snap, n - 1));
      ApplyConcat(db, s, PropertiesActions(name, d, a, snap, n - 1), PropertyActions(name, p, d.at[p], a, snap));
      assert p !in d.keys[..n - 1];
      PropertyApplied(db, s, m, name, p, d.at[p], a, snap);
    }
  }

  /** One more declared index. */
  lemma IndexCreated(db: Database, s: Schema, name: string, want: Index)
    requires name in s.at
    ensures var s' := ApplyActions(db, s, [Within(name, CreateIndex(want))]);
            && OnlyType(s, s', name) && s'.at[name] == s.at[name].(indexes := s'.at[name].indexes)
            && s.at[name].indexes <= s'.at[name].indexes && HasIndex(s'.at[name].indexes, want)
  {
    ApplyOne(db, s, Within(name, CreateIndex(want)));
    var have := ApplyActions(db, s, [Within(name, CreateIndex(want))]).at[name].indexes;
    assert IndexesMatch(have[|have| - 1], want);
  }

  lemma {:induction false} IndexesApplied(db: Database, s: Schema, name: string, d: seq<Index>, a: seq<Index>, n: nat)
    requires n <= |d| && name in s.at && s.at[name].indexes == a
    ensures var s' := ApplyActions(db, s, IndexesActions(name, d, a, n));
            && OnlyType(s, s', name) && s'.at[name] == s.at[name].(indexes := s'.at[name].indexes)
            && a <= s'.at[name].indexes
            && forall i | 0 <= i < n :: HasIndex(s'.at[name].indexes, d[i])
  {
    hide ApplyActions, HasIndex;
    if n == 0 {
      ApplyNone(db, s);
      assert s.at[name := s.at[name]] == s.at;
    } else {
      IndexesApplied(db, s, name, d, a, n - 1);
      var before := IndexesActions(name, d, a, n - 1);
      var m := ApplyActions(db, s, before);
      if HasIndex(a, d[n - 1]) {
        assert IndexesActions(name, d, a, n) == before;
        HasIndexGrows(a, m.at[name].indexes, d[n - 1]);
      } else {
        var last := [Within(name, CreateIndex(d[n - 1]))];
        ApplyConcat(db, s, before, last);
        IndexCreated(db, m, name, d[n - 1]);
        var s' := ApplyActions(db, m, last);
        forall i | 0 <= i < n - 1 ensures HasIndex(s'.at[name].indexes, d[i]) {
          HasIndexGrows(m.at[name].indexes, s'.at[name].indexes, d[i]);
        }
        assert s.at[name := m.at[name]][name := s'.at[name]] == s.at[name := s'.at[name]];
      }
    }
  }

  lemma HasIndexGrows(a: seq<Index>, b: seq<Index>, want: Index)
    requires a <= b && HasIndex(a, want)
    ensures HasIndex(b, want)
  {
    var i :| 0 <= i < |a| && IndexesMatch(a[i], want);
    assert b[i] == a[i];
  }

  lemma SupersApplied(db: Database, s: Schema, name: string, d: seq<string>)
    requires name in s.at
    ensures var s' := ApplyActions(db, s, SupersActions(name, d, s.at[name].supers));
            && OnlyType(s, s', name) && s'.at[name] == s.at[name].(supers := s'.at[name].supers)
            && SameNames(d, s'.at[name].supers)
  {
    var a := s.at[name].supers;
    var acts := SupersActions(name, d, a);
    var add, remove := Without(d, a), Without(a, d);
    if acts == [] {
      assert s.at[name := s.at[name]] == s.at;
      forall x ensures x in d <==> x in a { assert x !in add && x !in remove; }
    } else {
      assert acts[..0] == [];
      assert ApplyActions(db, s, acts) == ApplyAction(db, s, acts[0]);
      forall x ensures x in d <==> x in Without(a, remove) + add {}
    }
  }

  /** What a declared type looks like after the diff, given what stood there before. */
  ghost predicate TypeSettles(db: Database, name: string, d: Type, before: Option<Type>, after: Type,
      snap: Option<Snapshot>)
    requires d.properties.Valid()
  {
    && after.kind == (if before.Some? then before.value.kind else d.kind)
    && (!Skipped(d, after) ==>
          && SameNames(d.supers, after.supers)
          && after.properties.at
             == SettledUpTo(db, name, d.properties, if before.Some? then before.value.properties.at else map[], snap,
                            |d.properties.keys|)
          && forall i | 0 <= i < |d.indexes| :: HasIndex(after.indexes, d.indexes[i]))
  }

  function Standing(s: Schema, name: string): Option<Type> {
    if name in s.at then Some(s.at[name]) else None
  }

  lemma PropertiesAndIndexesApplied(db: Database, s: Schema, name: string, d: Type, a: Table<Property>,
      snap: Option<Snapshot>)
    requires d.properties.Valid() && name in s.at && s.at[name].properties.at == a.at
    ensures var props := PropertiesActions(name, d.properties, a, snap, |d.properties.keys|);
            var s' := ApplyActions(db, s, props + IndexesActions(name, d.indexes, s.at[name].indexes, |d.indexes|));
            && OnlyType(s, s', name) && s'.at[name].kind == s.at[name].kind && s'.at[name].supers == s.at[name].supers
            && s'.at[name].properties.at == SettledUpTo(db, name, d.properties, a.at, snap, |d.properties.keys|)
            && forall i | 0 <= i < |d.indexes| :: HasIndex(s'.at[name].indexes, d.indexes[i])
  {
    hide PropertiesActions, IndexesActions, SettledUpTo, HasIndex, ApplyActions, ValidSchema;
    var props := PropertiesActions(name, d.properties, a, snap, |d.properties.keys|);
    var indexes := IndexesActions(name, d.indexes, s.at[name].indexes, |d.indexes|);
    PropertiesApplied(db, s, name, d.properties, a, snap, |d.properties.keys|);
    var m := ApplyActions(db, s, props);
    ApplyConcat(db, s, props, indexes);
    IndexesApplied(db, m, name, d.indexes, s.at[name].indexes, |d.indexes|);
    OnlyTypeChain(s, m, ApplyActions(db, m, indexes), name);
  }

  /** The actions for one declared type, applied where the type still stands as the diff saw it. */
  lemma TypeApplied(db: Database, s: Schema, name: string, d: Type, actual: Schema, snap: Option<Snapshot>)
    requires d.properties.Valid() && Standing(s, name) == Standing(actual, name)
    ensures var s' := ApplyActions(db, s, TypeActions(name, d, actual, snap));
            && name in s'.at && s'.at == s.at[name := s'.at[name]]
            && (ValidSchema(s) ==> ValidSchema(s'))
            && TypeSettles(db, name, d, Standing(actual, name), s'.at[name], snap)
  {
    hide PropertiesActions, IndexesActions, SupersActions, ApplyActions, TypeSettles;
    if name !in actual.at {
      NewTypeApplied(db, s, name, d, snap);
    } else if Skipped(d, actual.at[name]) {
      assert TypeActions(name, d, actual, snap) == [];
      ApplyNone(db, s);
      assert s.at[name := s.at[name]] == s.at;
      SkippedSettles(db, name, d, actual.at[name], snap);
    } else {
      KnownTypeApplied(db, s, name, d, actual.at[name], snap);
      var supers := SupersActions(name, d.supers, actual.at[name].supers);
      var properties := PropertiesActions(name, d.properties, actual.at[name].properties, snap, |d.properties.keys|);
      var indexes := IndexesActions(name, d.indexes, actual.at[name].indexes, |d.indexes|);
      assert supers + properties + indexes == supers + (properties + indexes);
    }
  }

  lemma SkippedSettles(db: Database, name: string, d: Type, a: Type, snap: Option<Snapshot>)
    requires d.properties.Valid() && Skipped(d, a)
    ensures TypeSettles(db, name, d, Some(a), a, snap)
  {
    hide SettledUpTo, HasIndex, SameNames;
  }

  /** A type the database does not have yet. */
  lemma NewTypeApplied(db: Database, s: Schema, name: string, d: Type, snap: Option<Snapshot>)
    requires d.properties.Valid() && name !in s.at
    ensures var properties := PropertiesActions(name, d.properties, Table([], map[]), snap, |d.properties.keys|);
            var rest := if d.kind.Timeseries? then [] else properties + IndexesActions(name, d.indexes, [], |d.indexes|);
            var s' := ApplyActions(db, s, [CreateType(name, d.kind, d.supers)] + rest);
            && name in s'.at && s'.at == s.at[name := s'.at[name]]
            && (ValidSchema(s) ==> ValidSchema(s'))
            && TypeSettles(db, name, d, None, s'.at[name], snap)
  {
    hide PropertiesActions, IndexesActions, ApplyActions, SettledUpTo, HasIndex, SameNames;
    var create := [CreateType(name, d.kind, d.supers)];
    var m := ApplyActions(db, s, create);
    ApplyOne(db, s, create[0]);
    if d.kind.Timeseries? {
      assert create + [] == create;
    } else {
      var rest := PropertiesActions(name, d.properties, Table([], map[]), snap, |d.properties.keys|)
          + IndexesActions(name, d.indexes, [], |d.indexes|);
      ApplyConcat(db, s, create, rest);
      PropertiesAndIndexesApplied(db, m, name, d, Table([], map[]), snap);
      var s' := ApplyActions(db, m, rest);
      assert s.at[name := m.at[name]][name := s'.at[name]] == s.at[name := s'.at[name]];
      SameNamesSelf(d.supers);
    }
  }

  /** A type that stands as the diff saw it. */
  lemma KnownTypeApplied(db: Database, s: Schema, name: string, d: Type, a: Type, snap: Option<Snapshot>)
    requires d.properties.Valid() && name in s.at && s.at[name] == a
    ensures var rest := PropertiesActions(name, d.properties, a.properties, snap, |d.properties.keys|)
                        + IndexesActions(name, d.indexes, a.indexes, |d.indexes|);
            var s' := ApplyActions(db, s, SupersActions(name, d.supers, a.supers) + rest);
            && OnlyType(s, s', name) && TypeSettles(db, name, d, Some(a), s'.at[name], snap)
  {
    hide PropertiesActions, IndexesActions, SupersActions, ApplyActions, SettledUpTo, HasIndex, SameNames, ValidSchema;
    var supers := SupersActions(name, d.supers, a.supers);
    var rest := PropertiesActions(name, d.properties, a.properties, snap, |d.properties.keys|)
        + IndexesActions(name, d.indexes, a.indexes, |d.indexes|);
    ApplyConcat(db, s, supers, rest);
    SupersApplied(db, s, name, d.supers);
    var m := ApplyActions(db, s, supers);
    PropertiesAndIndexesApplied(db, m, name, d, a.properties, snap);
    OnlyTypeChain(s, m, ApplyActions(db, m, rest), name);
  }

  lemma SameNamesSelf(a: seq<string>)
    ensures SameNames(a, a)
  {
  }

  // ----- the whole diff -----

  lemma DeclaredType(desired: Schema, n: nat)
    requires ValidSchema(desired) && 0 < n <= |desired.keys|
    ensures var last := desired.keys[n - 1];
            last in desired.at && desired.at[last].properties.Valid() && last !in desired.keys[..n - 1]
    ensures desired.keys[..n] == desired.keys[..n - 1] + [desired.keys[n - 1]]
  {
  }

  lemma {:induction false} AllTypesApplied(db: Database, desired: Schema, actual: Schema, snap: Option<Snapshot>,
      n: nat, name: string)
    requires ValidSchema(desired) && ValidSchema(actual) && n <= |desired.keys|
    ensures var s := ApplyActions(db, actual, AllTypeActions(desired, actual, snap, n));
            && ValidSchema(s)
            && (if name in desired.keys[..n] then
                  name in desired.at && desired.at[name].properties.Valid() && name in s.at
                  && TypeSettles(db, name, desired.at[name], Standing(actual, name), s.at[name], snap)
                else Standing(s, name) == Standing(actual, name))
  {
    hide TypeActions, TypeSettles, ApplyActions, ValidSchema;
    ApplyNone(db, actual);
    if n > 0 {
      var last := desired.keys[n - 1];
      DeclaredType(desired, n);
      AllTypesApplied(db, desired, actual, snap, n - 1, name);
      AllTypesApplied(db, desired, actual, snap, n - 1, last);
      var m := ApplyActions(db, actual, AllTypeActions(desired, actual, snap, n - 1));
      ApplyConcat(db, actual, AllTypeActions(desired, actual, snap, n - 1), TypeActions(last, desired.at[last], actual, snap));
      TypeApplied(db, m, last, desired.at[last], actual, snap);
    }
  }

  lemma {:induction false} DropsApplied(db: Database, s: Schema, drops: seq<Action>, name: string)
    requires forall a | a in drops :: a.DropType?
    ensures var s' := ApplyActions(db, s, drops);
            && (ValidSchema(s) ==> ValidSchema(s'))
            && Standing(s', name) == if DropType(name) in drops then None else Standing(s, name)
  {
    if drops != [] {
      var init, last := drops[..|drops| - 1], drops[|drops| - 1];
      DropsApplied(db, s, init, name);
      assert drops == init + [last] && last in drops;
    }
  }

  /** Where the diff's actions lead: every declared type is settled, and under an explicit drop
      strategy nothing stands that is neither declared nor owned. */
  lemma DiffApplied(db: Database, desired: Schema, actual: Schema, snap: Option<Snapshot>, strategy: DropStrategy,
      ignored: set<string>)
    requires ValidSchema(desired) && ValidSchema(actual)
    ensures var s := ApplyActions(db, actual, Diff(desired, actual, snap, strategy, ignored));
            && ValidSchema(s)
            && (forall n | n in desired.at :: n in s.at && TypeSettles(db, n, desired.at[n], Standing(actual, n), s.at[n], snap))
            && (strategy.Explicit? ==> forall n | n in s.at :: n in desired.at || n in ignored)
  {
    hide AllTypeActions, Drops, TypeSettles;
    var types := AllTypeActions(desired, actual, snap, |desired.keys|);
    var drops := if strategy.Explicit? then Drops(desired, actual, ignored, |actual.keys|) else [];
    DropsMeaning(desired, actual, ignored, |actual.keys|);
    var m := ApplyActions(db, actual, types);
    ApplyConcat(db, actual, types, drops);
    forall n ensures Standing(ApplyActions(db, m, drops), n) == if DropType(n) in drops then None else Standing(m, n) {
      DropsApplied(db, m, drops, n);
    }
    AllTypesApplied(db, desired, actual, snap, |desired.keys|, "");
    DropsApplied(db, m, drops, "");
    assert actual.keys[..|actual.keys|] == actual.keys && desired.keys[..|desired.keys|] == desired.keys;
    var s := ApplyActions(db, m, drops);
    forall n | n in desired.at ensures n in s.at && TypeSettles(db, n, desired.at[n], Standing(actual, n), s.at[n], snap) {
      AllTypesApplied(db, desired, actual, snap, |desired.keys|, n);
      assert n in desired.keys && Standing(s, n) == Standing(m, n);
    }
    if strategy.Explicit? {
      forall n | n in s.at ensures n in desired.at || n in ignored {
        assert Standing(s, n).Some?;
        if n !in desired.at { AllTypesApplied(db, desired, actual, snap, |desired.keys|, n); }
      }
    }
  }

  // ----- default texts -----

  function DefaultsOfType(typeName: string, d: Table<Property>, out: map<string, string>, n: nat): map<string, string>
    requires d.Valid() && n <= |d.keys|
  {
    if n == 0 then out
    else
      var p := d.keys[n - 1];
      var before := DefaultsOfType(typeName, d, out, n - 1);
      if d.at[p].default.Some? then before[DefaultKey(typeName, p) := d.at[p].default.value] else before
  }

  function DefaultExprs(desired: Schema, n: nat): map<string, string>
    requires ValidSchema(desired) && n <= |desired.keys|
  {
    if n == 0 then map[]
    else
      var t := desired.keys[n - 1];
      DefaultsOfType(t, desired.at[t].properties, DefaultExprs(desired, n - 1), |desired.at[t].properties.keys|)
  }

  method CollectDefaultExprs(desired: Schema) returns (exprs: map<string, string>)
    requires ValidSchema(desired)
    ensures exprs == DefaultExprs(desired, |desired.keys|)
  {
    exprs := map[];
    for i := 0 to |desired.keys|
      invariant exprs == DefaultExprs(desired, i)
    {
      var t := desired.keys[i];
      var props := desired.at[t].properties;
      ghost var before := exprs;
      for j := 0 to |props.keys|
        invariant exprs == DefaultsOfType(t, props, before, j)
      {
        var p := props.keys[j];
        if props.at[p].default.Some? { exprs := exprs[DefaultKey(t, p) := props.at[p].default.value]; }
      }
    }
  }

  /** The texts recorded for `desired` read back as the ones it declares. */
  ghost predicate ReadsBack(desired: Schema, t: string, p: string)
    requires ValidSchema(desired) && t in desired.at && p in desired.at[t].properties.at
  {
    var exprs := DefaultExprs(desired, |desired.keys|);
    var key := DefaultKey(t, p);
    desired.at[t].properties.at[p].default == if key in exprs then Some(exprs[key]) else None
  }

  /** Every declared default the diff reconciles kept a value and is recorded under its own key. */
  ghost predicate DefaultsKept(desired: Schema, s: Schema)
    requires ValidSchema(desired)
  {
    forall t, p | t in desired.at && t in s.at && !Skipped(desired.at[t], s.at[t])
                  && p in desired.at[t].properties.at && desired.at[t].properties.at[p].default.Some? ::
      && p in s.at[t].properties.at && s.at[t].properties.at[p].default.Some?
      && ReadsBack(desired, t, p)
  }

  // ----- reading the schema again -----

  predicate SameProperty(d: Option<Property>, p: Property, p': Property) {
    if d.Some? && d.value.default.Some? && IsExpression(d.value.default.value) then
      p' == p.(default := p'.default) && (p'.default.Some? <==> p.default.Some?)
    else p' == p
  }

  function Declared(desired: Schema, t: string, p: string): Option<Property> {
    if t in desired.at && p in desired.at[t].properties.at then Some(desired.at[t].properties.at[p]) else None
  }

  /** What a later introspection shows: the same schema, except that values of defaults declared
      as expressions may have come out differently. */
  ghost predicate Reread(desired: Schema, s: Schema, s': Schema) {
    && s'.at.Keys == s.at.Keys
    && forall t | t in s.at :: SameType(desired, t, s.at[t], s'.at[t])
  }

  ghost predicate SameType(desired: Schema, t: string, a: Type, b: Type) {
    && b.kind == a.kind && b.supers == a.supers && b.indexes == a.indexes
    && b.properties.at.Keys == a.properties.at.Keys
    && forall p | p in a.properties.at :: SameProperty(Declared(desired, t, p), a.properties.at[p], b.properties.at[p])
  }

  /** The snapshot a sync records: the schema after the diff, and the declared default texts. */
  function Recorded(desired: Schema, s: Schema): Snapshot
    requires ValidSchema(desired)
  {
    Snapshot(s, DefaultExprs(desired, |desired.keys|))
  }

  lemma PropertySettlesConforms(db: Database, desired: Schema, t: string, p: string, before: map<string, Property>,
      s: Schema, s': Schema, snap: Option<Snapshot>)
    requires ValidSchema(desired) && t in desired.at && p in desired.at[t].properties.at
    requires t in s.at && t in s'.at && p in s.at[t].properties.at && p in s'.at[t].properties.at
    requires s.at[t].properties.at[p] == SettledProperty(db, t, p, desired.at[t].properties.at[p], before, snap)
    requires SameProperty(Declared(desired, t, p), s.at[t].properties.at[p], s'.at[t].properties.at[p])
    ensures var d := desired.at[t].properties.at[p];
            PropertyConforms(t, p, d, s'.at[t].properties.at[p], Some(Recorded(desired, s))) <==>
            (d.default.Some? ==> s.at[t].properties.at[p].default.Some? && ReadsBack(desired, t, p))
  {
    hide DefaultExprs, DefaultKey;
  }

  lemma TypeSettlesConforms(db: Database, desired: Schema, t: string, before: Option<Type>, s: Schema, s': Schema,
      snap: Option<Snapshot>)
    requires ValidSchema(desired) && t in desired.at && t in s.at && t in s'.at
    requires TypeSettles(db, t, desired.at[t], before, s.at[t], snap) && SameType(desired, t, s.at[t], s'.at[t])
    ensures TypeConforms(t, desired.at[t], s'.at[t], Some(Recorded(desired, s))) <==>
            (!Skipped(desired.at[t], s.at[t]) ==>
               forall p | p in desired.at[t].properties.at && desired.at[t].properties.at[p].default.Some? ::
                 p in s.at[t].properties.at && s.at[t].properties.at[p].default.Some? && ReadsBack(desired, t, p))
  {
    hide PropertyConforms, ReadsBack, SettledUpTo, SettledProperty, HasIndex, IndexPresent, SameNames, SameProperty;
    var d := desired.at[t];
    if !Skipped(d, s.at[t]) {
      forall i | 0 <= i < |d.indexes| ensures IndexPresent(s'.at[t].indexes, d.indexes[i]) {
        PresentIff(s'.at[t].indexes, d.indexes[i]);
      }
      var a := if before.Some? then before.value.properties.at else map[];
      assert d.properties.keys[..|d.properties.keys|] == d.properties.keys;
      forall p | p in d.properties.at
        ensures p in s.at[t].properties.at && p in s'.at[t].properties.at
        ensures PropertyConforms(t, p, d.properties.at[p], s'.at[t].properties.at[p], Some(Recorded(desired, s))) <==>
                (d.properties.at[p].default.Some? ==> s.at[t].properties.at[p].default.Some? && ReadsBack(desired, t, p))
      {
        SettledUpToAt(db, t, d.properties, a, snap, |d.properties.keys|, p);
        assert p in d.properties.keys;
        PropertySettlesConforms(db, desired, t, p, a, s, s', snap);
      }
    }
  }

  /** Convergence. After the diff's actions, a second diff, of the schema as any later
      introspection shows it, against the snapshot recorded in between, renders nothing exactly
      when the database kept a value for every declared default and each is recorded under a key
      of its own. */
  lemma DiffConverges(db: Database, desired: Schema, actual: Schema, snap: Option<Snapshot>, strategy: DropStrategy,
      ignored: set<string>, again: Schema)
    requires ValidSchema(desired) && ValidSchema(actual) && ValidSchema(again)
    requires Reread(desired, ApplyActions(db, actual, Diff(desired, actual, snap, strategy, ignored)), again)
    ensures var s := ApplyActions(db, actual, Diff(desired, actual, snap, strategy, ignored));
            Rendered(Diff(desired, again, Some(Recorded(desired, s)), strategy, ignored)) == [] <==> DefaultsKept(desired, s)
  {
    hide Diff, TypeSettles, TypeConforms, SameType, ReadsBack;
    var s := ApplyActions(db, actual, Diff(desired, actual, snap, strategy, ignored));
    DiffApplied(db, desired, actual, snap, strategy, ignored);
    RendersIffNotConforming(desired, again, Some(Recorded(desired, s)), strategy, ignored);
    forall t | t in desired.at
      ensures TypeConforms(t, desired.at[t], again.at[t], Some(Recorded(desired, s))) <==>
              (!Skipped(desired.at[t], s.at[t]) ==>
                 forall p | p in desired.at[t].properties.at && desired.at[t].properties.at[p].default.Some? ::
                   p in s.at[t].properties.at && s.at[t].properties.at[p].default.Some? && ReadsBack(desired, t, p))
    {
      TypeSettlesConforms(db, desired, t, Standing(actual, t), s, again, snap);
    }
  }
}
