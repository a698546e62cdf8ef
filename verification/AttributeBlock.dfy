/** The attribute block of a property declaration, `(MANDATORY true, MIN "1", DEFAULT x)`: the
    printer and the parser. */
module AttributeBlock {
  import opened Text
  import opened SqlText
  import opened SchemaModel

  datatype Constraints = Constraints(flags: set<Flag>, bounds: map<Bound, string>, default: Option<string>)

  const UNCONSTRAINED := Constraints({}, map[], None)

  /** One entry of a block. */
  datatype Attribute = FlagIs(flag: Flag, on: bool) | BoundIs(bound: Bound, value: string) | DefaultIs(text: string)

  function With(c: Constraints, a: Attribute): Constraints {
    match a
    case FlagIs(f, on) => c.(flags := if on then c.flags + {f} else c.flags - {f})
    case BoundIs(b, v) => c.(bounds := c.bounds[b := v])
    case DefaultIs(t) => c.(default := Some(t))
  }

  // ----- rendering -----

  function FlagName(f: Flag): string {
    match f
    case Mandatory => "MANDATORY"
    case NotNull => "NOTNULL"
    case ReadOnly => "READONLY"
    case External => "EXTERNAL"
  }

  function BoundName(b: Bound): string {
    match b
    case Min => "MIN"
    case Max => "MAX"
    case Regexp => "REGEXP"
  }

  predicate PlainChar(c: char) {
    'a' <= c <= 'z' || 'A' <= c <= 'Z' || '0' <= c <= '9' || c == '_' || c == '.' || c == '@' || c == ':' || c == '-'
  }

  /** Exactly which characters need no quotes around them. */
  lemma PlainCharIff(c: char)
    ensures PlainChar(c) <==> c in LOWER || c in UPPER || c in DIGITS || c in "_.@:-"
  {
    LowerIff(c);
    UpperIff(c);
    DigitIff(c);
  }

  predicate PlainText(v: string) {
    forall i | 0 <= i < |v| :: PlainChar(v[i])
  }

  function EscapeQuotes(v: string): string {
    if v == [] then [] else (if v[0] == '"' then ['\\', '"'] else [v[0]]) + EscapeQuotes(v[1..])
  }

  function QuoteValue(v: string): string {
    if v == [] || !PlainText(v) then ['"'] + EscapeQuotes(v) + ['"'] else v
  }

  function RenderAttribute(a: Attribute): string {
    match a
    case FlagIs(f, on) => FlagName(f) + (if on then " true" else " false")
    case BoundIs(b, v) => BoundName(b) + " " + QuoteValue(v)
    case DefaultIs(t) => "DEFAULT " + t
  }

  function FlagAttribute(c: Constraints, f: Flag): seq<Attribute> {
    if f in c.flags then [FlagIs(f, true)] else []
  }

  function BoundAttribute(c: Constraints, b: Bound): seq<Attribute> {
    if b in c.bounds then [BoundIs(b, c.bounds[b])] else []
  }

  /** The entries in the canonical order; flags that are off are left out. */
  function Attributes(c: Constraints): seq<Attribute> {
    FlagAttribute(c, Mandatory) + FlagAttribute(c, NotNull) + FlagAttribute(c, ReadOnly) + FlagAttribute(c, External)
    + BoundAttribute(c, Min) + BoundAttribute(c, Max) + BoundAttribute(c, Regexp)
    + (if c.default.Some? then [DefaultIs(c.default.value)] else [])
  }

  function Joined(parts: seq<Attribute>): string {
    if parts == [] then []
    else if |parts| == 1 then RenderAttribute(parts[0])
    else RenderAttribute(parts[0]) + ", " + Joined(parts[1..])
  }

  function RenderBlock(c: Constraints): string {
    if Attributes(c) == [] then "" else "(" + Joined(Attributes(c)) + ")"
  }

  /** What follows the property's name in its declaration. */
  function TypeClause(typeName: string, c: Constraints): string {
    if RenderBlock(c) == "" then typeName else typeName + " " + RenderBlock(c)
  }

  // ----- splitting on commas -----

  datatype Pos = Pos(quote: Quote, depth: int)

  const TOP := Pos(Outside, 0)

  function Move(p: Pos, c: char): Pos {
    Pos(Step(p.quote, c),
        if Inside(p.quote, c) then p.depth
        else if c == '(' || c == '[' || c == '{' then p.depth + 1
        else if c == ')' || c == ']' || c == '}' then p.depth - 1
        else p.depth)
  }

  function Walk(s: string, p: Pos): Pos {
    if s == [] then p else Walk(s[1..], Move(p, s[0]))
  }

  predicate CutsAt(p: Pos, c: char) {
    !Inside(p.quote, c) && c == ',' && p.depth == 0
  }

  /** No comma of `s` is at the top level when read from `p`. */
  predicate Whole(s: string, p: Pos) {
    s == [] || (!CutsAt(p, s[0]) && Whole(s[1..], Move(p, s[0])))
  }

  function Pieces(s: string, p: Pos, cur: string): (r: seq<string>)
    ensures r != []
  {
    if s == [] then [cur]
    else if CutsAt(p, s[0]) then [cur] + Pieces(s[1..], p, [])
    else Pieces(s[1..], Move(p, s[0]), cur + [s[0]])
  }

  method SplitTopLevelCommas(s: string) returns (out: seq<string>)
    ensures out == Pieces(s, TOP, [])
  {
    hide Pieces;
    out := [];
    var start := 0;
    var pos := TOP;
    assert s[0..] == s && s[0..0] == [];
    for i := 0 to |s|
      invariant 0 <= start <= i
      invariant out + Pieces(s[i..], pos, s[start..i]) == Pieces(s, TOP, [])
    {
      PiecesFrom(s, i, pos, s[start..i]);
      if CutsAt(pos, s[i]) {
        ghost var so, from := out, start;
        out := out + [s[start..i]];
        start := i + 1;
        assert s[start..i + 1] == [];
        assert so + ([s[from..i]] + Pieces(s[i + 1..], pos, [])) == out + Pieces(s[i + 1..], pos, []);
      } else {
        assert s[start..i] + [s[i]] == s[start..i + 1];
        pos := Move(pos, s[i]);
      }
    }
    PiecesFrom(s, |s|, pos, s[start..]);
    assert s[start..|s|] == s[start..];
    out := out + [s[start..]];
  }

  /** The pieces from index `i` on, one step unfolded. */
  lemma PiecesFrom(s: string, i: nat, p: Pos, cur: string)
    requires i <= |s|
    ensures Pieces(s[i..], p, cur) ==
            if i == |s| then [cur]
            else if CutsAt(p, s[i]) then [cur] + Pieces(s[i + 1..], p, [])
            else Pieces(s[i + 1..], Move(p, s[i]), cur + [s[i]])
  {
    if i < |s| { assert s[i..][1..] == s[i + 1..]; }
  }

  // ----- parsing -----

  datatype BlockError =
    | ExpectsBool(name: string, text: string)
    | ExpectsValue(name: string)
    | Unsupported(name: string)
    | MissingType
    | SliceOutOfRange

  datatype Key = FlagKey(flag: Flag) | BoundKey(bound: Bound) | DefaultKey | NoKey

  function KeyOf(name: string): Key {
    var upper := ToUpper(name);
    if upper == "MANDATORY" then FlagKey(Mandatory)
    else if upper == "NOTNULL" then FlagKey(NotNull)
    else if upper == "READONLY" then FlagKey(ReadOnly)
    else if upper == "EXTERNAL" then FlagKey(External)
    else if upper == "MIN" then BoundKey(Min)
    else if upper == "MAX" then BoundKey(Max)
    else if upper == "REGEXP" then BoundKey(Regexp)
    else if upper == "DEFAULT" then DefaultKey
    else NoKey
  }

  predicate Wrapped(v: string, q: char) {
    |v| >= 2 && v[0] == q && v[|v| - 1] == q
  }

  /** The value between its quotes, if it has any; escapes are not undone. */
  function ParseStringValue(name: string, v: string): Result<string, BlockError> {
    if v == [] then Err(ExpectsValue(name))
    else if Wrapped(v, '"') || Wrapped(v, '\'') then Ok(v[1..|v| - 1])
    else Ok(v)
  }

  function ParseBool(name: string, v: string): Result<bool, BlockError> {
    if ToUpper(v) == "TRUE" then Ok(true)
    else if ToUpper(v) == "FALSE" then Ok(false)
    else Err(ExpectsBool(name, v))
  }

  function ParseNamed(c: Constraints, name: string, value: string): Result<Constraints, BlockError> {
    match KeyOf(name)
    case FlagKey(f) =>
      var b := ParseBool(name, value);
      if b.Err? then Err(b.error) else Ok(With(c, FlagIs(f, b.value)))
    case BoundKey(b) =>
      var v := ParseStringValue(name, value);
      if v.Err? then Err(v.error) else Ok(With(c, BoundIs(b, v.value)))
    case DefaultKey => Ok(With(c, DefaultIs(Trim(value))))
    case NoKey => Err(Unsupported(name))
  }

  function ParseItem(c: Constraints, piece: string): Result<Constraints, BlockError> {
    var item := Trim(piece);
    if item == [] then Ok(c)
    else
      var n := WordLength(item);
      ParseNamed(c, item[..n], Trim(item[n..]))
  }

  function ParseItems(c: Constraints, pieces: seq<string>): Result<Constraints, BlockError>
    decreases |pieces|
  {
    if pieces == [] then Ok(c)
    else
      var r := ParseItem(c, pieces[0]);
      if r.Err? then r else ParseItems(r.value, pieces[1..])
  }

  function ParseInterior(block: string): Result<Constraints, BlockError> {
    ParseItems(UNCONSTRAINED, Pieces(block, TOP, []))
  }

  method ParseAttributeBlock(block: string) returns (r: Result<Constraints, BlockError>)
    ensures r == ParseInterior(block)
  {
    hide Pieces, ParseItem;
    var pieces := SplitTopLevelCommas(block);
    var c := UNCONSTRAINED;
    assert pieces[0..] == pieces;
    for i := 0 to |pieces|
      invariant ParseItems(UNCONSTRAINED, pieces) == ParseItems(c, pieces[i..])
    {
      assert pieces[i..][1..] == pieces[i + 1..];
      var item := ParseItem(c, pieces[i]);
      if item.Err? { return item; }
      c := item.value;
    }
    return Ok(c);
  }

  /** The first opening parenthesis outside quotes. */
  function FirstParen(s: string, q: Quote): (r: Option<nat>)
    ensures r.Some? ==> r.value < |s| && s[r.value] == '('
  {
    if s == [] then None
    else if !Inside(q, s[0]) && s[0] == '(' then Some(0)
    else
      var r := FirstParen(s[1..], Step(q, s[0]));
      if r.None? then None else Some(r.value + 1)
  }

  method SplitAtFirstParen(s: string) returns (at: Option<nat>)
    ensures at == FirstParen(s, Outside)
  {
    var q := Outside;
    assert s[0..] == s;
    for i := 0 to |s|
      invariant var rest := FirstParen(s[i..], q);
                FirstParen(s, Outside) == if rest.None? then None else Some(i + rest.value)
    {
      assert s[i..][1..] == s[i + 1..];
      if !Inside(q, s[i]) && s[i] == '(' { return Some(i); }
      q := Step(q, s[i]);
    }
    return None;
  }

  /** The type and constraints after the property's name. The interior drops the last character
      whatever it is, and a lone parenthesis has no interior to take. */
  function ParseClause(rest: string): Result<(string, Constraints), BlockError> {
    var at := FirstParen(rest, Outside);
    var typeName := ToUpper(Trim(if at.Some? then rest[..at.value] else rest));
    if typeName == [] then Err(MissingType)
    else if at.None? then Ok((typeName, UNCONSTRAINED))
    else
      var block := rest[at.value..];
      if |block| < 2 then Err(SliceOutOfRange)
      else
        var c := ParseInterior(block[1..|block| - 1]);
        if c.Err? then Err(c.error) else Ok((typeName, c.value))
  }
}
