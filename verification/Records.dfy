/** Typed records: what the derives generate for a struct, run over a description of its fields. */
module Records {
  import opened Text

  // ----- wire values -----

  /** A wire value. A timestamp carries its text form; floats carry only their kind. */
  datatype Gv =
    | Null
    | BoolV(b: bool)
    | Int32V(n: int)
    | Int64V(n: int)
    | FloatV
    | DoubleV
    | StringV(s: string)
    | BytesV(bytes: seq<nat>)
    | TimestampV(iso: string)
    | ListV(values: seq<Gv>)
    | MapV(entries: map<string, Gv>)
    | EmbeddedV(entries: map<string, Gv>)
    | LinkV(rid: string)
    | DecimalV(unscaled: int, scale: int, bytes: seq<nat>)

  function KindName(v: Gv): string {
    match v
    case Null => "null"
    case BoolV(_) => "bool"
    case Int32V(_) => "int32"
    case Int64V(_) => "int64"
    case FloatV => "float"
    case DoubleV => "double"
    case StringV(_) => "string"
    case BytesV(_) => "bytes"
    case TimestampV(_) => "timestamp"
    case ListV(_) => "list"
    case MapV(_) => "map"
    case EmbeddedV(_) => "embedded"
    case LinkV(_) => "link"
    case DecimalV(_, _, _) => "decimal"
  }

  /** `EntryErrors`: a map decode that failed; the program reports one of these, whichever entry
      it meets first. */
  datatype DecodeError =
    | MissingField(path: string)
    | TypeMismatch(path: string, expected: string, actual: string)
    | Conversion(message: string)
    | EntryErrors(errors: map<string, DecodeError>)

  function WithField(e: DecodeError, field: string): DecodeError {
    match e
    case MissingField(p) => MissingField(if p == "" then field else field + "." + p)
    case TypeMismatch(p, x, a) => TypeMismatch(if p == "" then field else field + "." + p, x, a)
    case Conversion(m) => Conversion("field `" + field + "`: " + m)
    case EntryErrors(errors) => EntryErrors(map k | k in errors :: WithField(errors[k], field))
  }

  function In<T>(r: Result<T, DecodeError>, field: string): (s: Result<T, DecodeError>)
    ensures s.Ok? <==> r.Ok?
    ensures r.Ok? ==> s == r
  {
    if r.Ok? then r else Err(WithField(r.error, field))
  }

  // ----- field types and struct shapes -----

  datatype IntWidth = I8 | I16 | I32 | I64 | U8 | U16 | U32 | U64

  function Low(w: IntWidth): int {
    match w
    case I8 => -0x80
    case I16 => -0x8000
    case I32 => -0x8000_0000
    case I64 => -0x8000_0000_0000_0000
    case _ => 0
  }

  function High(w: IntWidth): int {
    match w
    case I8 => 0x7F
    case I16 => 0x7FFF
    case I32 => 0x7FFF_FFFF
    case I64 => 0x7FFF_FFFF_FFFF_FFFF
    case U8 => 0xFF
    case U16 => 0xFFFF
    case U32 => 0xFFFF_FFFF
    case U64 => 0xFFFF_FFFF_FFFF_FFFF
  }

  function WidthName(w: IntWidth): string {
    match w
    case I8 => "i8"
    case I16 => "i16"
    case I32 => "i32"
    case I64 => "i64"
    case U8 => "u8"
    case U16 => "u16"
    case U32 => "u32"
    case U64 => "u64"
  }

  datatype FieldType =
    | Str
    | Bool
    | Int(width: IntWidth)
    | Bytes
    | ListOf(element: FieldType)
    | MapOf(element: FieldType)
    | Struct(shape: Shape)
    | Custom(decode: Gv -> Result<Val, DecodeError>, encode: Val -> Gv)

  datatype Policy = Required | Optional | Defaulted(default: Val)

  /** A struct's fields in order; at most one flattened field, decoded after the others. */
  datatype Shape =
    | Done
    | Field(wire: string, ty: FieldType, policy: Policy, tail: Shape)
    | Flatten(name: string, optional: bool, inner: Shape)

  datatype Val =
    | StrVal(s: string)
    | BoolVal(b: bool)
    | IntVal(n: int)
    | BytesVal(bytes: seq<nat>)
    | ListVal(values: seq<Val>)
    | MapVal(entries: map<string, Val>)
    | StructVal(dto: Dto)

  /** A struct's value, along its shape; `None` is an absent optional. */
  datatype Dto =
    | NoFields
    | FieldIs(value: Option<Val>, tail: Dto)
    | FlatIs(inner: Option<Dto>)

  // ----- decoding values -----

  function Mismatch<T>(expected: string, v: Gv): Result<T, DecodeError> {
    Err(TypeMismatch("", expected, KindName(v)))
  }

  function StringFrom(v: Gv): Result<Val, DecodeError> {
    match v
    case StringV(s) => Ok(StrVal(s))
    case LinkV(rid) => Ok(StrVal(rid))
    case TimestampV(iso) => Ok(StrVal(iso))
    case DecimalV(u, scale, bytes) =>
      if scale != 0 || bytes != [] then Ok(StrVal(DecimalText(u) + "e-" + DecimalText(scale))) else Mismatch("string", v)
    case _ => Mismatch("string", v)
  }

  predicate InRange(w: IntWidth, n: int) {
    Low(w) <= n <= High(w)
  }

  function IntFrom(w: IntWidth, v: Gv): Result<Val, DecodeError> {
    var n: Option<int> :=
      match v
      case Int32V(n) => Some(n)
      case Int64V(n) => Some(n)
      case DecimalV(u, scale, bytes) => if scale == 0 && bytes == [] then Some(u) else None
      case _ => None;
    if n.Some? && InRange(w, n.value) then Ok(IntVal(n.value)) else Mismatch(WidthName(w), v)
  }

  /** One element of a list read as bytes. */
  function ByteFrom(v: Gv): Result<nat, DecodeError> {
    if (v.Int32V? || v.Int64V?) && InRange(U8, v.n) then Ok(v.n) else Mismatch("u8", v)
  }

  function BytesFromList(values: seq<Gv>): Result<seq<nat>, DecodeError> {
    if values == [] then Ok([])
    else
      var b := ByteFrom(values[0]);
      if b.Err? then Err(b.error)
      else
        var rest := BytesFromList(values[1..]);
        if rest.Err? then rest else Ok([b.value] + rest.value)
  }

  /** A byte-blob field: the `bytes` kind or a list of small integers. */
  function BlobFrom(v: Gv): Result<Val, DecodeError> {
    match v
    case BytesV(b) => Ok(BytesVal(b))
    case ListV(values) =>
      var r := BytesFromList(values);
      if r.Err? then Err(r.error) else Ok(BytesVal(r.value))
    case _ => Mismatch("bytes", v)
  }

  /** A byte vector inside a container goes through the generic list decoder, element by element
      as `u8`, which the `bytes` kind is not. */
  function ByteVectorFrom(values: seq<Gv>, at: nat): Result<seq<nat>, DecodeError> {
    if values == [] then Ok([])
    else
      var b := In(IntFrom(U8, values[0]), "list[" + Digits(at) + "]");
      if b.Err? then Err(b.error)
      else
        var rest := ByteVectorFrom(values[1..], at + 1);
        if rest.Err? then rest else Ok([if b.value.IntVal? && b.value.n >= 0 then b.value.n else 0] + rest.value)
  }

  /** `FromGrpcValue`, by the target's type. */
  function FromGv(ty: FieldType, v: Gv): Result<Val, DecodeError>
    decreases ty, 0
  {
    match ty
    case Str => StringFrom(v)
    case Bool => if v.BoolV? then Ok(BoolVal(v.b)) else Mismatch("bool", v)
    case Int(w) => IntFrom(w, v)
    case Bytes =>
      if !v.ListV? then Mismatch("list", v)
      else
        var r := ByteVectorFrom(v.values, 0);
        if r.Err? then Err(r.error) else Ok(BytesVal(r.value))
    case ListOf(t) =>
      if !v.ListV? then Mismatch("list", v)
      else
        var r := ListFrom(t, v.values, 0);
        if r.Err? then Err(r.error) else Ok(ListVal(r.value))
    case MapOf(t) =>
      if !v.MapV? then Mismatch("map", v)
      else
        var bad := FailedEntries(t, v.entries);
        if bad != map[] then Err(EntryErrors(bad)) else Ok(MapVal(ReadEntries(t, v.entries)))
    case Struct(shape) =>
      if v.EmbeddedV? || v.MapV? then
        var r := Decode(shape, v.entries, [], [], None, None);
        if r.Err? then Err(r.error) else Ok(StructVal(r.value))
      else Mismatch("embedded record", v)
    case Custom(decode, _) => decode(v)
  }

  function FailedEntries(t: FieldType, entries: map<string, Gv>): (r: map<string, DecodeError>)
    ensures forall k :: k in r <==> k in entries && FromGv(t, entries[k]).Err?
    ensures forall k | k in r :: r[k] == WithField(FromGv(t, entries[k]).error, "map[" + k + "]")
    decreases t, 1
  {
    map k | k in entries && FromGv(t, entries[k]).Err? :: WithField(FromGv(t, entries[k]).error, "map[" + k + "]")
  }

  function ReadEntries(t: FieldType, entries: map<string, Gv>): (r: map<string, Val>)
    ensures forall k :: k in r <==> k in entries && FromGv(t, entries[k]).Ok?
    ensures forall k | k in r :: FromGv(t, entries[k]) == Ok(r[k])
    decreases t, 1
  {
    map k | k in entries && FromGv(t, entries[k]).Ok? :: FromGv(t, entries[k]).value
  }

  function ListFrom(t: FieldType, values: seq<Gv>, at: nat): Result<seq<Val>, DecodeError>
    decreases t, 1, |values|
  {
    if values == [] then Ok([])
    else
      var first := In(FromGv(t, values[0]), "list[" + Digits(at) + "]");
      if first.Err? then Err(first.error)
      else
        var rest := ListFrom(t, values[1..], at + 1);
        if rest.Err? then rest else Ok([first.value] + rest.value)
  }

  // ----- decoding structs -----

  /** `visible`: a key an enclosing flatten scope consumed does not exist. */
  function Visible(m: map<string, Gv>, key: string, taken: seq<string>): Option<Gv> {
    if key in taken || key !in m then None else Some(m[key])
  }

  predicate IsMetadata(wire: string) {
    wire == "@rid" || wire == "@type"
  }

  /** What a field reads: ordinary fields through `taken`, metadata fields straight from the map
      and then from the record's own metadata. */
  function Source(wire: string, m: map<string, Gv>, taken: seq<string>, rid: Option<string>,
      typ: Option<string>): Option<Gv> {
    if !IsMetadata(wire) then Visible(m, wire, taken)
    else if wire in m then Some(m[wire])
    else
      var syn := if wire == "@rid" then rid else typ;
      if syn.Some? then Some(StringV(syn.value)) else None
  }

  function ValueOf(wire: string, ty: FieldType, v: Gv): Result<Val, DecodeError>
    decreases ty, 1
  {
    In(if ty.Bytes? && !IsMetadata(wire) then BlobFrom(v) else FromGv(ty, v), wire)
  }

  function FieldFrom(wire: string, ty: FieldType, policy: Policy, v: Option<Gv>): Result<Option<Val>, DecodeError>
    decreases ty, 2
  {
    match v
    case None =>
      (match policy
       case Required => Err(MissingField(wire))
       case Optional => Ok(None)
       case Defaulted(d) => Ok(Some(d)))
    case Some(v) =>
      if policy.Optional? && v.Null? then Ok(None)
      else
        var r := ValueOf(wire, ty, v);
        if r.Err? then Err(r.error) else Ok(Some(r.value))
  }

  /** The generated decoder: the map is never copied; `taken` hides what enclosing scopes
      consumed, `own` collects this scope's names for the flattened field. */
  function Decode(shape: Shape, m: map<string, Gv>, taken: seq<string>, own: seq<string>,
                  rid: Option<string>, typ: Option<string>): Result<Dto, DecodeError>
    decreases shape, 0
  {
    match shape
    case Done => Ok(NoFields)
    case Field(wire, ty, policy, tail) =>
      var v := FieldFrom(wire, ty, policy, Source(wire, m, taken, rid, typ));
      if v.Err? then Err(v.error)
      else
        var rest := Decode(tail, m, taken, own + [wire], rid, typ);
        if rest.Err? then rest else Ok(FieldIs(v.value, rest.value))
    case Flatten(name, optional, inner) =>
      var hidden := taken + own;
      if optional && !(exists k :: k in m && k !in hidden) then Ok(FlatIs(None))
      else
        var r := In(Decode(inner, m, hidden, [], None, None), name);
        if r.Err? then r else Ok(FlatIs(Some(r.value)))
  }

  /** The clone-based decoder it replaced: each flattened field gets a map of its own, holding
      what the enclosing scope did not consume. */
  function DecodeCloned(shape: Shape, m: map<string, Gv>, own: seq<string>,
                        rid: Option<string>, typ: Option<string>): Result<Dto, DecodeError>
    decreases shape
  {
    match shape
    case Done => Ok(NoFields)
    case Field(wire, ty, policy, tail) =>
      var v := FieldFrom(wire, ty, policy, Source(wire, m, [], rid, typ));
      if v.Err? then Err(v.error)
      else
        var rest := DecodeCloned(tail, m, own + [wire], rid, typ);
        if rest.Err? then rest else Ok(FieldIs(v.value, rest.value))
    case Flatten(name, optional, inner) =>
      var rest := m - Set(own);
      if optional && rest == map[] then Ok(FlatIs(None))
      else
        var r := In(DecodeCloned(inner, rest, [], None, None), name);
        if r.Err? then r else Ok(FlatIs(Some(r.value)))
  }

  function Set(s: seq<string>): set<string> {
    set k | k in s
  }

  /** Every metadata field of the shape that the map could serve is still visible at its level:
      no enclosing scope consumed it. */
  predicate MetadataVisible(shape: Shape, m: map<string, Gv>, taken: seq<string>, own: seq<string>) {
    match shape
    case Done => true
    case Field(wire, _, _, tail) =>
      (IsMetadata(wire) && wire in m ==> wire !in taken) && MetadataVisible(tail, m, taken, own + [wire])
    case Flatten(_, _, inner) => MetadataVisible(inner, m, taken + own, [])
  }

  // ----- encoding -----

  /** The value has the field's Rust type. */
  predicate Fits(ty: FieldType, v: Val) {
    match ty
    case Str => v.StrVal?
    case Bool => v.BoolVal?
    case Int(w) => v.IntVal? && InRange(w, v.n)
    case Bytes => v.BytesVal? && forall b | b in v.bytes :: b < 0x100
    case ListOf(t) => v.ListVal? && forall x | x in v.values :: Fits(t, x)
    case MapOf(t) => v.MapVal? && forall k | k in v.entries :: Fits(t, v.entries[k])
    case Struct(shape) => v.StructVal? && FitsShape(shape, v.dto)
    case Custom(_, _) => true
  }

  predicate FitsShape(shape: Shape, dto: Dto) {
    match shape
    case Done => dto.NoFields?
    case Field(_, ty, policy, tail) =>
      && dto.FieldIs? && (dto.value.Some? || policy.Optional?)
      && (dto.value.Some? ==> Fits(ty, dto.value.value)) && FitsShape(tail, dto.tail)
    case Flatten(_, optional, inner) =>
      dto.FlatIs? && (dto.inner.Some? || optional) && (dto.inner.Some? ==> FitsShape(inner, dto.inner.value))
  }

  /** `as i64` on an unsigned 64-bit value. */
  function AsI64(n: int): int {
    if n <= High(I64) then n else n - 0x1_0000_0000_0000_0000
  }

  function EncodeVal(ty: FieldType, v: Val): Gv
    requires Fits(ty, v)
    decreases ty, 0
  {
    match ty
    case Str => StringV(v.s)
    case Bool => BoolV(v.b)
    case Int(w) =>
      (match w
       case I64 => Int64V(v.n)
       case U32 => Int64V(v.n)
       case U64 => Int64V(AsI64(v.n))
       case _ => Int32V(v.n))
    case Bytes => BytesV(v.bytes)
    case ListOf(t) => ListV(EncodeList(t, v.values))
    case MapOf(t) => MapV(EncodeMap(t, v.entries))
    case Struct(shape) => MapV(Collect(Props(shape, v.dto)))
    case Custom(_, encode) => encode(v)
  }

  function EncodeList(t: FieldType, values: seq<Val>): (r: seq<Gv>)
    requires forall x | x in values :: Fits(t, x)
    ensures |r| == |values|
    decreases t, 1, |values|
  {
    if values == [] then [] else [EncodeVal(t, values[0])] + EncodeList(t, values[1..])
  }

  function EncodeMap(t: FieldType, entries: map<string, Val>): (r: map<string, Gv>)
    requires forall k | k in entries :: Fits(t, entries[k])
    ensures r.Keys == entries.Keys && forall k | k in entries :: r[k] == EncodeVal(t, entries[k])
    decreases t, 1
  {
    map k | k in entries :: EncodeVal(t, entries[k])
  }

  /** The property list: an absent optional writes nothing, a flattened struct is spliced in. */
  function Props(shape: Shape, dto: Dto): seq<(string, Gv)>
    requires FitsShape(shape, dto)
    decreases shape, 0
  {
    match shape
    case Done => []
    case Field(wire, ty, _, tail) =>
      (if dto.value.Some? then [(wire, EncodeVal(ty, dto.value.value))] else []) + Props(tail, dto.tail)
    case Flatten(_, _, inner) => if dto.inner.Some? then Props(inner, dto.inner.value) else []
  }

  /** Collecting pairs into a map: the last pair of a name wins. */
  function Collect(props: seq<(string, Gv)>): map<string, Gv> {
    if props == [] then map[] else map[props[0].0 := props[0].1] + Collect(props[1..])
  }

  // ----- the map decoder as a loop -----

  predicate AllFrom(t: FieldType, entries: map<string, Gv>, out: map<string, Val>) {
    out.Keys == entries.Keys && forall k | k in entries :: FromGv(t, entries[k]) == Ok(out[k])
  }

  lemma FromMapOk(t: FieldType, entries: map<string, Gv>, out: map<string, Val>)
    requires AllFrom(t, entries, out)
    ensures FromGv(MapOf(t), MapV(entries)) == Ok(MapVal(out))
  {
    assert FailedEntries(t, entries) == map[] && ReadEntries(t, entries) == out by { EntriesRead(t, entries, out); }
    hide FailedEntries, ReadEntries;
  }

  lemma EntriesRead(t: FieldType, entries: map<string, Gv>, out: map<string, Val>)
    requires AllFrom(t, entries, out)
    ensures FailedEntries(t, entries) == map[] && ReadEntries(t, entries) == out
  {
    hide WithField, FromGv;
  }

  lemma FromMapErr(t: FieldType, entries: map<string, Gv>, key: string)
    requires key in entries && FromGv(t, entries[key]).Err?
    ensures var r := FromGv(MapOf(t), MapV(entries));
            && r.Err? && r.error.EntryErrors? && key in r.error.errors
            && r.error.errors[key] == WithField(FromGv(t, entries[key]).error, "map[" + key + "]")
  {
    hide WithField, FailedEntries, ReadEntries;
    assert key in FailedEntries(t, entries);
  }

  /** Entries are met in no particular order; the first failing one met is reported. */
  method MapFrom(t: FieldType, entries: map<string, Gv>) returns (r: Result<map<string, Val>, DecodeError>)
    ensures r.Ok? ==> FromGv(MapOf(t), MapV(entries)) == Ok(MapVal(r.value))
    ensures r.Err? ==> var s := FromGv(MapOf(t), MapV(entries));
                       s.Err? && s.error.EntryErrors? && r.error in s.error.errors.Values
  {
    hide FromGv, WithField;
    var out: map<string, Val> := map[];
    var left := entries.Keys;
    while left != {}
      invariant left <= entries.Keys
      invariant out.Keys == entries.Keys - left
      invariant forall k | k in out :: FromGv(t, entries[k]) == Ok(out[k])
      decreases |left|
    {
      var k :| k in left;
      var v := FromGv(t, entries[k]);
      if v.Err? {
        FromMapErr(t, entries, k);
        return Err(WithField(v.error, "map[" + k + "]"));
      }
      out := out[k := v.value];
      left := left - {k};
    }
    FromMapOk(t, entries, out);
    return Ok(out);
  }

  // ----- widths -----

  function Bits(w: IntWidth): nat {
    match w
    case I8 | U8 => 8
    case I16 | U16 => 16
    case I32 | U32 => 32
    case I64 | U64 => 64
  }

  predicate Signed(w: IntWidth) {
    w.I8? || w.I16? || w.I32? || w.I64?
  }

  function Pow2(n: nat): int {
    if n == 0 then 1 else 2 * Pow2(n - 1)
  }

  lemma {:induction false} Pow2Plus(a: nat, b: nat)
    ensures Pow2(a + b) == Pow2(a) * Pow2(b)
  {
    if a > 0 { Pow2Plus(a - 1, b); }
  }

  lemma Powers()
    ensures Pow2(7) == 0x80 && Pow2(8) == 0x100 && Pow2(15) == 0x8000 && Pow2(16) == 0x1_0000
    ensures Pow2(31) == 0x8000_0000 && Pow2(32) == 0x1_0000_0000
    ensures Pow2(63) == 0x8000_0000_0000_0000 && Pow2(64) == 0x1_0000_0000_0000_0000
  {
    assert Pow2(4) == 16 && Pow2(3) == 8;
    Pow2Plus(4, 3);
    Pow2Plus(4, 4);
    Pow2Plus(8, 7);
    Pow2Plus(8, 8);
    Pow2Plus(16, 15);
    Pow2Plus(16, 16);
    Pow2Plus(32, 31);
    Pow2Plus(32, 32);
  }

  /** A wire integer, or a decimal without scale and bytes, decodes into a field of so many bits
      exactly when it is one: from minus to one below half the power of two for a signed field,
      and from zero to one below the power for an unsigned one. Anything else is a mismatch, and
      nothing is truncated. */
  lemma IntegerDecodesIff(w: IntWidth, v: Gv)
    ensures var r := FromGv(Int(w), v);
            var n := if v.Int32V? || v.Int64V? then v.n else if v.DecimalV? then v.unscaled else 0;
            && (r.Ok? <==>
                  && (v.Int32V? || v.Int64V? || (v.DecimalV? && v.scale == 0 && v.bytes == []))
                  && (if Signed(w) then -Pow2(Bits(w) - 1) <= n < Pow2(Bits(w) - 1) else 0 <= n < Pow2(Bits(w))))
            && (r.Ok? ==> r.value == IntVal(n))
  {
    Powers();
    hide Pow2;
  }

  /** An unsigned number travels as the signed one it is congruent to. */
  lemma UnsignedWraps(n: int)
    requires 0 <= n < Pow2(64)
    ensures -Pow2(63) <= AsI64(n) < Pow2(63) && (AsI64(n) - n) % Pow2(64) == 0
  {
    Powers();
    hide Pow2;
  }

  /** Text comes from texts, links and timestamps, and from a decimal only when it is not a plain
      integer. */
  lemma TextDecodesIff(v: Gv)
    ensures FromGv(Str, v).Ok? <==>
              v.StringV? || v.LinkV? || v.TimestampV? || (v.DecimalV? && !(v.scale == 0 && v.bytes == []))
    ensures v.DecimalV? && FromGv(Str, v).Ok? ==>
              FromGv(Str, v) == Ok(StrVal(DecimalText(v.unscaled) + "e-" + DecimalText(v.scale)))
  {
  }

  /** A byte field reads a list exactly when it holds nothing but integers from 0 to 255. */
  lemma {:induction false} BlobReadsListIff(values: seq<Gv>)
    ensures var r := BytesFromList(values);
            && (r.Ok? <==> forall i | 0 <= i < |values| :: (values[i].Int32V? || values[i].Int64V?) && 0 <= values[i].n <= 255)
            && (r.Ok? ==> |r.value| == |values| && forall i | 0 <= i < |values| ::
                            (values[i].Int32V? || values[i].Int64V?) && r.value[i] == values[i].n)
  {
    if values != [] {
      BlobReadsListIff(values[1..]);
      assert forall i | 0 <= i < |values[1..]| :: values[1..][i] == values[i + 1];
      if forall i | 0 <= i < |values[1..]| :: (values[1..][i].Int32V? || values[1..][i].Int64V?) && 0 <= values[1..][i].n <= 255 {
        forall i | 0 < i < |values| ensures (values[i].Int32V? || values[i].Int64V?) && 0 <= values[i].n <= 255 {
          assert values[i] == values[1..][i - 1];
        }
      }
    }
  }

  /** A list that does not decode reports its first bad element, by its index. */
  lemma {:induction false} ListErrorIsLocated(t: FieldType, values: seq<Gv>, at: nat, i: nat)
    requires i < |values| && FromGv(t, values[i]).Err? && forall j | 0 <= j < i :: FromGv(t, values[j]).Ok?
    ensures ListFrom(t, values, at) == Err(WithField(FromGv(t, values[i]).error, "list[" + Digits(at + i) + "]"))
    decreases i
  {
    hide FromGv, WithField;
    if i > 0 {
      forall j | 0 <= j < i - 1 ensures FromGv(t, values[1..][j]).Ok? { assert values[1..][j] == values[j + 1]; }
      ListErrorIsLocated(t, values[1..], at + 1, i - 1);
    }
  }

  /** A required field that is missing from a flattened struct is named by its path. */
  lemma MissingIsLocated(name: string, wire: string, ty: FieldType, m: map<string, Gv>, taken: seq<string>)
    requires !IsMetadata(wire) && wire !in m && wire != ""
    ensures Decode(Flatten(name, false, Field(wire, ty, Required, Done)), m, taken, [], None, None)
            == Err(MissingField(name + "." + wire))
  {
    var inner := Field(wire, ty, Required, Done);
    assert Source(wire, m, taken + [], None, None) == None;
    assert Decode(inner, m, taken + [], [], None, None) == Err(MissingField(wire));
  }
}
