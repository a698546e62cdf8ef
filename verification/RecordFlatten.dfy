/** The zero-copy flatten decoder agrees with the clone-based one. */
module RecordFlatten {
  import opened Text
  import opened Records

  /** Every metadata field that reads a consumed key decodes it to just what the key's absence
      would have given; fields of an absent optional flattened struct are not read. */
  predicate Unmoved(shape: Shape, m: map<string, Gv>, taken: seq<string>, own: seq<string>,
                    rid: Option<string>, typ: Option<string>)
  {
    match shape
    case Done => true
    case Field(wire, ty, policy, tail) =>
      && (IsMetadata(wire) && wire in m && wire in taken ==>
            FieldFrom(wire, ty, policy, Some(m[wire])) == FieldFrom(wire, ty, policy, Source(wire, map[], [], rid, typ)))
      && Unmoved(tail, m, taken, own + [wire], rid, typ)
    case Flatten(_, optional, inner) =>
      var hidden := taken + own;
      (optional && !(exists k :: k in m && k !in hidden)) || Unmoved(inner, m, hidden, [], None, None)
  }

  /** Hiding the consumed keys is decoding from a map without them, for every shape, map and
      taken list, when no consumed key a metadata field reads makes a difference to it. */
  lemma {:induction false} UnmovedDecodesAlike(shape: Shape, m: map<string, Gv>, taken: seq<string>, own: seq<string>,
                                               rid: Option<string>, typ: Option<string>)
    requires Unmoved(shape, m, taken, own, rid, typ)
    ensures Decode(shape, m, taken, own, rid, typ) == DecodeCloned(shape, m - Set(taken), own, rid, typ)
    decreases shape
  {
    hide FieldFrom;
    match shape
    case Done =>
    case Field(wire, ty, policy, tail) =>
      SourceMoves(wire, m, taken, rid, typ);
      UnmovedDecodesAlike(tail, m, taken, own + [wire], rid, typ);
    case Flatten(name, optional, inner) =>
      RestIsVisible(m, taken, own);
      if !optional || (exists k :: k in m && k !in taken + own) {
        UnmovedDecodesAlike(inner, m, taken + own, [], None, None);
      }
  }

  /** What a field reads from the map without the consumed keys. */
  lemma SourceMoves(wire: string, m: map<string, Gv>, taken: seq<string>, rid: Option<string>, typ: Option<string>)
    ensures Source(wire, m - Set(taken), [], rid, typ) ==
            if IsMetadata(wire) && wire in m && wire in taken then Source(wire, map[], [], rid, typ)
            else Source(wire, m, taken, rid, typ)
    ensures IsMetadata(wire) && wire in m ==> Source(wire, m, taken, rid, typ) == Some(m[wire])
  {
  }

  lemma RestIsVisible(m: map<string, Gv>, taken: seq<string>, own: seq<string>)
    ensures m - Set(taken) - Set(own) == m - Set(taken + own)
    ensures (exists k :: k in m && k !in taken + own) <==> m - Set(taken + own) != map[]
  {
    var hidden := taken + own;
    assert m - Set(taken) - Set(own) == m - Set(hidden);
    if k :| k in m && k !in hidden { assert k in m - Set(hidden); }
  }

  /** And only then, once a decode succeeds. */
  lemma {:induction false} AlikeIsUnmoved(shape: Shape, m: map<string, Gv>, taken: seq<string>, own: seq<string>,
                                          rid: Option<string>, typ: Option<string>)
    requires Decode(shape, m, taken, own, rid, typ).Ok?
    requires Decode(shape, m, taken, own, rid, typ) == DecodeCloned(shape, m - Set(taken), own, rid, typ)
    ensures Unmoved(shape, m, taken, own, rid, typ)
    decreases shape
  {
    hide FieldFrom;
    match shape
    case Done =>
    case Field(wire, ty, policy, tail) =>
      SourceMoves(wire, m, taken, rid, typ);
      AlikeIsUnmoved(tail, m, taken, own + [wire], rid, typ);
    case Flatten(name, optional, inner) =>
      RestIsVisible(m, taken, own);
      if !optional || (exists k :: k in m && k !in taken + own) {
        AlikeIsUnmoved(inner, m, taken + own, [], None, None);
      }
  }

  /** The zero-copy decoder and the clone-based one: as soon as either succeeds, they agree
      exactly when no consumed key makes a difference to a metadata field. When both fail, the
      one condition makes even their errors equal. */
  lemma ZeroCopyIsClonedIff(shape: Shape, m: map<string, Gv>, taken: seq<string>, own: seq<string>,
                            rid: Option<string>, typ: Option<string>)
    ensures var zero, cloned := Decode(shape, m, taken, own, rid, typ), DecodeCloned(shape, m - Set(taken), own, rid, typ);
            && (zero.Ok? || cloned.Ok? ==> (zero == cloned <==> Unmoved(shape, m, taken, own, rid, typ)))
            && (Unmoved(shape, m, taken, own, rid, typ) ==> zero == cloned)
  {
    hide Decode, DecodeCloned, Unmoved;
    if Unmoved(shape, m, taken, own, rid, typ) {
      UnmovedDecodesAlike(shape, m, taken, own, rid, typ);
    } else if Decode(shape, m, taken, own, rid, typ) == DecodeCloned(shape, m - Set(taken), own, rid, typ)
              && Decode(shape, m, taken, own, rid, typ).Ok? {
      AlikeIsUnmoved(shape, m, taken, own, rid, typ);
    }
  }

  lemma {:induction false} VisibleIsUnmoved(shape: Shape, m: map<string, Gv>, taken: seq<string>, own: seq<string>,
                                            rid: Option<string>, typ: Option<string>)
    requires MetadataVisible(shape, m, taken, own)
    ensures Unmoved(shape, m, taken, own, rid, typ)
    decreases shape
  {
    hide FieldFrom;
    match shape
    case Done =>
    case Field(wire, _, _, tail) => VisibleIsUnmoved(tail, m, taken, own + [wire], rid, typ);
    case Flatten(_, _, inner) => VisibleIsUnmoved(inner, m, taken + own, [], None, None);
  }

  /** No consumed key a metadata field reads: the decoders agree, errors included. */
  lemma ZeroCopyIsCloned(shape: Shape, m: map<string, Gv>, taken: seq<string>, own: seq<string>,
                         rid: Option<string>, typ: Option<string>)
    requires MetadataVisible(shape, m, taken, own)
    ensures Decode(shape, m, taken, own, rid, typ) == DecodeCloned(shape, m - Set(taken), own, rid, typ)
  {
    VisibleIsUnmoved(shape, m, taken, own, rid, typ);
    ZeroCopyIsClonedIff(shape, m, taken, own, rid, typ);
  }

  lemma {:induction false} StillVisible(shape: Shape, m: map<string, Gv>, less: map<string, Gv>, taken: seq<string>,
      fewer: seq<string>, own: seq<string>)
    requires MetadataVisible(shape, m, taken, own)
    requires less.Keys <= m.Keys && forall k | k in fewer :: k in taken
    ensures MetadataVisible(shape, less, fewer, own)
    decreases shape
  {
    match shape
    case Done =>
    case Field(wire, _, _, tail) =>
      StillVisible(tail, m, less, taken, fewer, own + [wire]);
    case Flatten(_, _, inner) =>
      StillVisible(inner, m, less, taken + own, fewer + own, []);
  }

  /** `from_map` on the enclosing record's map gives what `from_map_via_value` gives on an owned
      embedded value holding the remaining entries. */
  lemma FromMapIsFromValue(shape: Shape, m: map<string, Gv>, taken: seq<string>)
    requires MetadataVisible(shape, m, taken, [])
    ensures FromGv(Struct(shape), EmbeddedV(m - Set(taken)))
            == (var r := Decode(shape, m, taken, [], None, None); if r.Err? then Err(r.error) else Ok(StructVal(r.value)))
  {
    hide Decode, DecodeCloned;
    var rest := m - Set(taken);
    ZeroCopyIsCloned(shape, m, taken, [], None, None);
    StillVisible(shape, m, rest, taken, [], []);
    ZeroCopyIsCloned(shape, rest, [], [], None, None);
    assert rest - Set([]) == rest;
  }

  /** No metadata field in the flattened parts. */
  predicate NoFlatMetadata(shape: Shape, flattened: bool) {
    match shape
    case Done => true
    case Field(wire, _, _, tail) => !(flattened && IsMetadata(wire)) && NoFlatMetadata(tail, flattened)
    case Flatten(_, _, inner) => NoFlatMetadata(inner, true)
  }

  lemma {:induction false} NoFlatMetadataIsVisible(shape: Shape, m: map<string, Gv>, taken: seq<string>,
      own: seq<string>, flattened: bool)
    requires NoFlatMetadata(shape, flattened) && (flattened || taken == [])
    ensures MetadataVisible(shape, m, taken, own)
    decreases shape
  {
    match shape
    case Done =>
    case Field(wire, _, _, tail) => NoFlatMetadataIsVisible(tail, m, taken, own + [wire], flattened);
    case Flatten(_, _, inner) => NoFlatMetadataIsVisible(inner, m, taken + own, [], true);
  }

  /** A whole record of any struct whose flattened parts have no metadata fields. */
  lemma RecordDecodesAlike(shape: Shape, m: map<string, Gv>, rid: Option<string>, typ: Option<string>)
    requires NoFlatMetadata(shape, false)
    ensures Decode(shape, m, [], [], rid, typ) == DecodeCloned(shape, m, [], rid, typ)
  {
    NoFlatMetadataIsVisible(shape, m, [], [], false);
    ZeroCopyIsCloned(shape, m, [], [], rid, typ);
    assert m - Set([]) == m;
  }

  /** With a metadata field in both, the flattened struct reads the key its parent consumed, and
      the two decoders part: one succeeds, the other misses the field. */
  lemma ConsumedMetadataLeaks(wire: string, name: string, m: map<string, Gv>, rid: Option<string>, typ: Option<string>)
    requires IsMetadata(wire) && wire in m && m[wire].StringV?
    ensures var child := Field(wire, Str, Required, Done);
            var parent := Field(wire, Str, Required, Flatten(name, false, child));
            var value := Some(StrVal(m[wire].s));
            && Decode(parent, m, [], [], rid, typ) == Ok(FieldIs(value, FlatIs(Some(FieldIs(value, NoFields)))))
            && DecodeCloned(parent, m, [], rid, typ) == Err(WithField(MissingField(wire), name))
  {
    var child := Field(wire, Str, Required, Done);
    var value := Some(StrVal(m[wire].s));
    assert Decode(Done, m, [wire], [wire], None, None) == Ok(NoFields);
    assert [] + [wire] == [wire];
    assert Decode(child, m, [wire], [], None, None) == Ok(FieldIs(value, NoFields));
    var rest := m - Set([wire]);
    assert wire in [wire] && wire !in rest;
    assert DecodeCloned(child, rest, [], None, None) == Err(MissingField(wire));
    assert FieldFrom(wire, Str, Required, Source(wire, m, [], rid, typ)) == Ok(value);
    assert DecodeCloned(Flatten(name, false, child), m, [wire], rid, typ) == Err(WithField(MissingField(wire), name));
  }
}
