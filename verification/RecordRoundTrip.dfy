/** Decoding what was encoded: exactly when a struct's value comes back. */
module RecordRoundTrip {
  import opened Text
  import opened Records

  // ----- what the derives' users must keep to -----

  predicate DistinctType(ty: FieldType) {
    match ty
    case ListOf(t) => DistinctType(t)
    case MapOf(t) => DistinctType(t)
    case Struct(shape) => Distinct(shape, [])
    case _ => true
  }

  /** Wire names differ from one another across all flatten levels, and from `seen`. */
  predicate Distinct(shape: Shape, seen: seq<string>) {
    match shape
    case Done => true
    case Field(wire, ty, _, tail) => wire !in seen && DistinctType(ty) && Distinct(tail, seen + [wire])
    case Flatten(_, _, inner) => Distinct(inner, seen)
  }

  // ----- which values survive -----

  /** An unsigned 64-bit value must fit a signed one; a byte vector may not sit in a container;
      a custom conversion must undo its own encoding. */
  predicate Survives(ty: FieldType, v: Val)
    requires Fits(ty, v)
  {
    match ty
    case Int(w) => v.n <= High(I64)
    case Bytes => false
    case ListOf(t) => forall x | x in v.values :: Survives(t, x)
    case MapOf(t) => forall k | k in v.entries :: Survives(t, v.entries[k])
    case Struct(shape) => SurvivesIn(shape, v.dto, None, None)
    case Custom(decode, encode) => decode(encode(v)) == Ok(v)
    case _ => true
  }

  function Synthesized(wire: string, rid: Option<string>, typ: Option<string>): Option<string> {
    if wire == "@rid" then rid else if wire == "@type" then typ else None
  }

  /** An absent optional must not be filled from the record's own metadata; a byte blob survives
      as a field of its own; a flattened optional must write something to be seen again. */
  predicate SurvivesIn(shape: Shape, dto: Dto, rid: Option<string>, typ: Option<string>)
    requires FitsShape(shape, dto)
  {
    match shape
    case Done => true
    case Field(wire, ty, policy, tail) =>
      && (if dto.value.None? then Synthesized(wire, rid, typ).None?
          else if ty.Bytes? then !IsMetadata(wire)
          else Survives(ty, dto.value.value) && (policy.Optional? ==> !EncodeVal(ty, dto.value.value).Null?))
      && SurvivesIn(tail, dto.tail, rid, typ)
    case Flatten(_, optional, inner) =>
      dto.inner.Some? ==>
        (optional ==> Props(inner, dto.inner.value) != []) && SurvivesIn(inner, dto.inner.value, None, None)
  }

  // ----- collected properties -----

  lemma {:induction false} PropsAreFresh(shape: Shape, dto: Dto, seen: seq<string>)
    requires FitsShape(shape, dto) && Distinct(shape, seen)
    ensures forall k | k in Collect(Props(shape, dto)) :: k !in seen
    decreases shape
  {
    hide EncodeVal, Fits;
    match shape
    case Done =>
    case Field(wire, ty, _, tail) =>
      PropsAreFresh(tail, dto.tail, seen + [wire]);
      FieldProps(shape, dto);
    case Flatten(_, _, inner) =>
      if dto.inner.Some? { PropsAreFresh(inner, dto.inner.value, seen); }
  }

  lemma FieldProps(shape: Shape, dto: Dto)
    requires shape.Field? && FitsShape(shape, dto)
    ensures Collect(Props(shape, dto)) ==
            (if dto.value.Some? then map[shape.wire := EncodeVal(shape.ty, dto.value.value)] else map[])
                + Collect(Props(shape.tail, dto.tail))
  {
    hide EncodeVal, Fits;
    var rest := Props(shape.tail, dto.tail);
    if dto.value.Some? {
      assert Props(shape, dto)[1..] == rest;
    } else {
      assert Props(shape, dto) == rest;
      assert map[] + Collect(rest) == Collect(rest);
    }
  }

  lemma CollectEmpty(props: seq<(string, Gv)>)
    ensures Collect(props) == map[] <==> props == []
  {
    if props != [] { assert props[0].0 in Collect(props); }
  }

  // ----- values -----

  lemma {:induction false} ListReadsBackIff(t: FieldType, values: seq<Val>, at: nat)
    requires (forall x | x in values :: Fits(t, x)) && DistinctType(t)
    ensures ListFrom(t, EncodeList(t, values), at) == Ok(values) <==> forall x | x in values :: Survives(t, x)
    decreases t, 1, |values|
  {
    hide FromGv, EncodeVal, Survives, Fits, DistinctType, Digits;
    if values != [] {
      var x, rest := values[0], values[1..];
      assert x in values;
      ValueReadsBackIff(t, x);
      ListReadsBackIff(t, rest, at + 1);
      assert EncodeList(t, values)[1..] == EncodeList(t, rest);
      assert values == [x] + rest;
      assert (forall y | y in values :: Survives(t, y)) <==> Survives(t, x) && forall y | y in rest :: Survives(t, y);
    }
  }

  lemma {:induction false} MapReadsBackIff(t: FieldType, entries: map<string, Val>)
    requires (forall k | k in entries :: Fits(t, entries[k])) && DistinctType(t)
    ensures FromGv(MapOf(t), MapV(EncodeMap(t, entries))) == Ok(MapVal(entries))
        <==> forall k | k in entries :: Survives(t, entries[k])
    decreases t, 1
  {
    hide FromGv, EncodeVal, EncodeMap, Survives, Fits, DistinctType;
    var coded := EncodeMap(t, entries);
    forall k | k in entries ensures FromGv(t, coded[k]) == Ok(entries[k]) <==> Survives(t, entries[k]) {
      ValueReadsBackIff(t, entries[k]);
    }
    if forall k | k in entries :: FromGv(t, coded[k]).Ok? {
      var out := map k | k in entries :: FromGv(t, coded[k]).value;
      FromMapOk(t, coded, out);
      if k :| k in entries && !Survives(t, entries[k]) {
        assert out[k] != entries[k];
      } else {
        assert out == entries;
      }
    } else {
      var k :| k in entries && FromGv(t, coded[k]).Err?;
      FromMapErr(t, coded, k);
    }
  }

  /** A value inside a container or struct comes back exactly when it survives. */
  lemma {:induction false} ValueReadsBackIff(ty: FieldType, v: Val)
    requires Fits(ty, v) && DistinctType(ty)
    ensures FromGv(ty, EncodeVal(ty, v)) == Ok(v) <==> Survives(ty, v)
    decreases ty, 0
  {
    match ty
    case ListOf(t) => ListReadsBackIff(t, v.values, 0);
    case MapOf(t) => MapReadsBackIff(t, v.entries);
    case Struct(shape) =>
      var none: seq<string> := [];
      assert none + none == none;
      PropsAreFresh(shape, v.dto, none);
      StructReadsBackIff(shape, v.dto, Collect(Props(shape, v.dto)), [], [], None, None);
    case _ =>
  }

  // ----- structs -----

  /** The map holds the struct's properties and, beyond them, only consumed keys. */
  predicate Serves(m: map<string, Gv>, props: map<string, Gv>, seen: seq<string>) {
    && (forall k | k in props :: k in m && m[k] == props[k] && k !in seen)
    && (forall k | k in m :: k in props || k in seen)
  }

  lemma FieldReadsBackIff(shape: Shape, dto: Dto, m: map<string, Gv>, taken: seq<string>, own: seq<string>,
                          rid: Option<string>, typ: Option<string>)
    requires shape.Field? && FitsShape(shape, dto) && Distinct(shape, taken + own)
    requires Serves(m, Collect(Props(shape, dto)), taken + own)
    requires dto.value.Some? ==> (FromGv(shape.ty, EncodeVal(shape.ty, dto.value.value)) == Ok(dto.value.value)
        <==> Survives(shape.ty, dto.value.value))
    ensures FieldFrom(shape.wire, shape.ty, shape.policy, Source(shape.wire, m, taken, rid, typ)) == Ok(dto.value) <==>
            if dto.value.None? then Synthesized(shape.wire, rid, typ).None?
            else if shape.ty.Bytes? then !IsMetadata(shape.wire)
            else Survives(shape.ty, dto.value.value) && (shape.policy.Optional? ==> !EncodeVal(shape.ty, dto.value.value).Null?)
  {
    hide Props, Survives, Distinct;
    var wire := shape.wire;
    assert wire !in taken + own && wire !in taken by { OwnNameIsFresh(shape, taken + own); }
    FieldProps(shape, dto);
    TailIsFresh(shape, dto, taken + own);
    var props := Collect(Props(shape, dto));
    if dto.value.Some? {
      assert wire in props && props[wire] == EncodeVal(shape.ty, dto.value.value);
      assert Source(wire, m, taken, rid, typ) == Some(m[wire]);
    } else {
      assert wire !in props && wire !in m;
      assert Source(wire, m, taken, rid, typ)
             == (var syn := Synthesized(wire, rid, typ); if syn.Some? then Some(StringV(syn.value)) else None);
    }
  }

  lemma OwnNameIsFresh(shape: Shape, seen: seq<string>)
    requires shape.Field? && Distinct(shape, seen)
    ensures shape.wire !in seen && Distinct(shape.tail, seen + [shape.wire]) && DistinctType(shape.ty)
  {
  }

  lemma TailIsFresh(shape: Shape, dto: Dto, seen: seq<string>)
    requires shape.Field? && FitsShape(shape, dto) && Distinct(shape, seen)
    ensures forall k | k in Collect(Props(shape.tail, dto.tail)) :: k !in seen && k != shape.wire
  {
    hide Props, Collect;
    PropsAreFresh(shape.tail, dto.tail, seen + [shape.wire]);
  }

  lemma TailServes(shape: Shape, dto: Dto, m: map<string, Gv>, seen: seq<string>)
    requires shape.Field? && FitsShape(shape, dto) && Distinct(shape, seen)
    requires Serves(m, Collect(Props(shape, dto)), seen)
    ensures Serves(m, Collect(Props(shape.tail, dto.tail)), seen + [shape.wire])
  {
    hide Props, Collect, EncodeVal, Distinct;
    FieldProps(shape, dto);
    TailIsFresh(shape, dto, seen);
  }

  /** Decoding what `props` wrote gives the struct back exactly when every field survives. */
  lemma {:induction false} StructReadsBackIff(shape: Shape, dto: Dto, m: map<string, Gv>, taken: seq<string>,
      own: seq<string>,
                                              rid: Option<string>, typ: Option<string>)
    requires FitsShape(shape, dto) && Distinct(shape, taken + own)
    requires Serves(m, Collect(Props(shape, dto)), taken + own)
    ensures Decode(shape, m, taken, own, rid, typ) == Ok(dto) <==> SurvivesIn(shape, dto, rid, typ)
    decreases shape, 0
  {
    hide FieldFrom, Survives, EncodeVal, Serves, Source;
    match shape
    case Done =>
    case Field(wire, ty, policy, tail) =>
      if dto.value.Some? { ValueReadsBackIff(ty, dto.value.value); }
      FieldReadsBackIff(shape, dto, m, taken, own, rid, typ);
      TailServes(shape, dto, m, taken + own);
      assert taken + own + [wire] == taken + (own + [wire]);
      StructReadsBackIff(tail, dto.tail, m, taken, own + [wire], rid, typ);
    case Flatten(name, optional, inner) =>
      var hidden := taken + own;
      FlattenSeen(shape, dto, m, hidden);
      if dto.inner.Some? {
        assert hidden + [] == hidden;
        StructReadsBackIff(inner, dto.inner.value, m, hidden, [], None, None);
      }
  }

  /** A flattened struct that wrote nothing leaves no key to see. */
  lemma FlattenSeen(shape: Shape, dto: Dto, m: map<string, Gv>, hidden: seq<string>)
    requires shape.Flatten? && FitsShape(shape, dto) && Serves(m, Collect(Props(shape, dto)), hidden)
    ensures (exists k :: k in m && k !in hidden) <==> Props(shape, dto) != []
  {
    hide Props, Collect;
    CollectEmpty(Props(shape, dto));
    var props := Collect(Props(shape, dto));
    if props != map[] {
      var k :| k in props;
      assert k in m && k !in hidden;
    }
  }

  /** A record written for a class and read back: no rid yet, and the class as its type. */
  lemma RecordReadsBackIff(shape: Shape, dto: Dto, cls: string)
    requires FitsShape(shape, dto) && Distinct(shape, [])
    ensures var typ := if cls == "" then None else Some(cls);
            Decode(shape, Collect(Props(shape, dto)), [], [], None, typ) == Ok(dto) <==> SurvivesIn(shape, dto, None, typ)
  {
    hide Decode, Props, SurvivesIn, Collect;
    var none: seq<string> := [];
    assert none + none == none;
    PropsAreFresh(shape, dto, []);
    StructReadsBackIff(shape, dto, Collect(Props(shape, dto)), [], [], None, if cls == "" then None else Some(cls));
  }
}
