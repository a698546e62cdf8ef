/** A printed attribute block parses back to its constraints. */
module AttributeRoundTrip {
  import opened Text
  import opened SqlText
  import opened SchemaModel
  import opened AttributeBlock

  // ----- positions over concatenations -----

  lemma {:induction false} WalkConcat(a: string, b: string, p: Pos)
    ensures Walk(a + b, p) == Walk(b, Walk(a, p))
    ensures Whole(a + b, p) <==> Whole(a, p) && Whole(b, Walk(a, p))
  {
    if a == [] {
      assert a + b == b;
    } else {
      assert (a + b)[1..] == a[1..] + b;
      WalkConcat(a[1..], b, Move(p, a[0]));
    }
  }

  lemma {:induction false} PiecesAfter(a: string, b: string, p: Pos, cur: string)
    requires Whole(a, p)
    ensures Pieces(a + b, p, cur) == Pieces(b, Walk(a, p), cur + a)
  {
    if a == [] {
      assert a + b == b && cur + a == cur;
    } else {
      assert (a + b)[1..] == a[1..] + b;
      PiecesAfter(a[1..], b, Move(p, a[0]), cur + [a[0]]);
      assert cur + [a[0]] + a[1..] == cur + a;
    }
  }

  /** Text that neither splits nor leaves anything open. */
  predicate Sealed(s: string) {
    Whole(s, TOP) && Walk(s, TOP) == TOP
  }

  predicate Inert(c: char) {
    c != '\'' && c != '"' && c != ',' && c != '(' && c != ')' && c != '[' && c != ']' && c != '{' && c != '}'
  }

  lemma {:induction false} InertIsSealed(s: string)
    requires forall i | 0 <= i < |s| :: Inert(s[i])
    ensures Sealed(s)
  {
    if s != [] {
      InertIsSealed(s[1..]);
      assert Inert(s[0]);
    }
  }

  lemma SealedConcat(a: string, b: string)
    requires Sealed(a)
    ensures Whole(a + b, TOP) <==> Whole(b, TOP)
    ensures Walk(a + b, TOP) == Walk(b, TOP)
  {
    WalkConcat(a, b, TOP);
  }

  // ----- joined entries -----

  function Leading(lead: string, parts: seq<Attribute>): seq<string>
    decreases |parts|
  {
    if parts == [] then [] else [lead + RenderAttribute(parts[0])] + Leading(" ", parts[1..])
  }

  /** Every entry but the last is sealed; the last need only not split. */
  predicate Separable(parts: seq<Attribute>) {
    forall i | 0 <= i < |parts| :: Whole(RenderAttribute(parts[i]), TOP) && (i < |parts| - 1 ==> Sealed(RenderAttribute(parts[i])))
  }

  lemma JoinedMore(lead: string, parts: seq<Attribute>)
    requires |parts| > 1
    ensures lead + Joined(parts) == (lead + RenderAttribute(parts[0])) + ("," + (" " + Joined(parts[1..])))
  {
    hide *;
    var first, rest := RenderAttribute(parts[0]), Joined(parts[1..]);
    JoinedTwo(parts);
    CommaSpace(rest);
    Regroup(lead, first, "," + (" " + rest));
  }

  lemma JoinedTwo(parts: seq<Attribute>)
    requires |parts| > 1
    ensures Joined(parts) == RenderAttribute(parts[0]) + (", " + Joined(parts[1..]))
  {
    hide RenderAttribute;
    Regroup(RenderAttribute(parts[0]), ", ", Joined(parts[1..]));
  }

  lemma CommaSpace(rest: string)
    ensures ", " + rest == "," + (" " + rest)
  {
    hide *;
    assert ", " == "," + " ";
    Regroup(",", " ", rest);
  }

  lemma {:induction false} JoinedSplits(lead: string, parts: seq<Attribute>)
    requires parts != [] && Separable(parts) && (lead == "" || lead == " ")
    ensures Pieces(lead + Joined(parts), TOP, []) == Leading(lead, parts)
    decreases |parts|
  {
    hide RenderAttribute;
    var first := lead + RenderAttribute(parts[0]);
    InertIsSealed(lead);
    SealedConcat(lead, RenderAttribute(parts[0]));
    assert [] + first == first;
    if |parts| == 1 {
      assert first + [] == first;
      PiecesAfter(first, [], TOP, []);
    } else {
      var rest := Joined(parts[1..]);
      JoinedMore(lead, parts);
      PiecesAfter(first, "," + (" " + rest), TOP, []);
      assert ("," + (" " + rest))[1..] == " " + rest;
      JoinedSplits(" ", parts[1..]);
    }
  }

  // ----- values -----

  lemma {:induction false} EscapingGrows(v: string)
    ensures '"' !in v ==> EscapeQuotes(v) == v
    ensures |EscapeQuotes(v)| >= |v| && ('"' in v ==> |EscapeQuotes(v)| > |v|)
  {
    if v != [] {
      EscapingGrows(v[1..]);
      assert v == [v[0]] + v[1..];
    }
  }

  /** A bound's value reads back exactly when it has no double quote: the printer escapes one,
      and the parser never undoes it. */
  lemma ValueReadsBackIff(name: string, v: string)
    ensures ParseStringValue(name, QuoteValue(v)) == Ok(v) <==> '"' !in v
  {
    hide EscapeQuotes;
    EscapingGrows(v);
    if v != [] && PlainText(v) {
      assert PlainChar(v[0]);
    } else {
      var q := QuoteValue(v);
      assert q[1..|q| - 1] == EscapeQuotes(v);
    }
  }

  function TrailingBackslashes(v: string): nat {
    if v == [] || v[|v| - 1] != '\\' then 0 else 1 + TrailingBackslashes(v[..|v| - 1])
  }

  /** A backslash before a quote goes. */
  function Unescape(s: string): string {
    if s == [] then []
    else if |s| > 1 && s[0] == '\\' && s[1] == '"' then ['"'] + Unescape(s[2..])
    else [s[0]] + Unescape(s[1..])
  }

  /** What the printer escapes is undone by dropping the backslash before each quote, which the
      parser of blocks does not do. */
  lemma {:induction false} UnescapeInverts(v: string)
    ensures Unescape(EscapeQuotes(v)) == v
    ensures v != [] && v[0] != '"' ==> EscapeQuotes(v) != [] && EscapeQuotes(v)[0] == v[0]
    ensures v != [] && v[0] == '"' ==> |EscapeQuotes(v)| > 1 && EscapeQuotes(v)[0] == '\\' && EscapeQuotes(v)[1] == '"'
  {
    if v != [] {
      var rest := EscapeQuotes(v[1..]);
      UnescapeInverts(v[1..]);
      if v[0] == '"' {
        assert (['\\', '"'] + rest)[2..] == rest;
      } else {
        assert ([v[0]] + rest)[1..] == rest;
        assert |rest| > 0 ==> rest[0] != '"';
      }
      assert [v[0]] + v[1..] == v;
    }
  }

  /** Inside double quotes, text without one leaves an escape pending exactly when it ends in an
      odd number of backslashes. */
  lemma {:induction false} InsideQuotes(v: string)
    requires '"' !in v
    ensures Walk(v, Pos(Double(false), 0)) == Pos(Double(TrailingBackslashes(v) % 2 == 1), 0)
    ensures Whole(v, Pos(Double(false), 0))
  {
    if v != [] {
      var n := |v| - 1;
      InsideQuotes(v[..n]);
      WalkConcat(v[..n], [v[n]], Pos(Double(false), 0));
      assert v[..n] + [v[n]] == v;
      assert [v[n]][1..] == [];
      assert v[n] in v;
    }
  }

  lemma QuotedWalk(v: string)
    requires '"' !in v
    ensures var q := ['"'] + v + ['"'];
            Whole(q, TOP) && (TrailingBackslashes(v) % 2 == 0 ==> Sealed(q))
  {
    hide Walk, Whole, TrailingBackslashes;
    var q := ['"'] + v + ['"'];
    var p := Pos(Double(false), 0);
    OneStep(TOP, '"', v + ['"']);
    assert q == ['"'] + (v + ['"']);
    InsideQuotes(v);
    WalkConcat(v, ['"'], p);
    OneStep(Walk(v, p), '"', []);
    assert ['"'] + [] == ['"'];
  }

  lemma OneStep(p: Pos, c: char, rest: string)
    ensures Walk([c] + rest, p) == Walk(rest, Move(p, c))
    ensures Whole([c] + rest, p) <==> !CutsAt(p, c) && Whole(rest, Move(p, c))
    ensures Walk([], Move(p, c)) == Move(p, c) && Whole([], Move(p, c))
  {
    assert ([c] + rest)[1..] == rest;
  }

  lemma PlainIsInert(v: string)
    requires PlainText(v)
    ensures Sealed(v) && '"' !in v
  {
    forall i | 0 <= i < |v| ensures Inert(v[i]) { assert PlainChar(v[i]); }
    InertIsSealed(v);
  }

  lemma QuoteValueShape(v: string)
    requires '"' !in v
    ensures QuoteValue(v) != [] && Trimmed(QuoteValue(v))
    ensures Whole(QuoteValue(v), TOP) && (TrailingBackslashes(v) % 2 == 0 ==> Sealed(QuoteValue(v)))
  {
    hide Sealed, Whole, Walk, EscapeQuotes, TrailingBackslashes;
    EscapingGrows(v);
    if v != [] && PlainText(v) {
      PlainIsInert(v);
      SealedIsWhole(v);
      assert PlainChar(v[0]) && PlainChar(v[|v| - 1]);
    } else {
      QuotedWalk(v);
    }
  }

  lemma SealedIsWhole(s: string)
    requires Sealed(s)
    ensures Whole(s, TOP)
  {
  }

  // ----- entries -----

  /** What an entry must satisfy to be read back; an escape left pending is harmless only at the
      very end of the block. */
  predicate Carried(a: Attribute, last: bool) {
    match a
    case FlagIs(_, _) => true
    case BoundIs(_, v) => '"' !in v && (last || TrailingBackslashes(v) % 2 == 0)
    case DefaultIs(t) => last && Trimmed(t) && Whole(t, TOP)
  }

  function NameOf(a: Attribute): string {
    match a
    case FlagIs(f, _) => FlagName(f)
    case BoundIs(b, _) => BoundName(b)
    case DefaultIs(_) => "DEFAULT"
  }

  function TextOf(a: Attribute): string {
    match a
    case FlagIs(_, on) => if on then "true" else "false"
    case BoundIs(_, v) => QuoteValue(v)
    case DefaultIs(t) => t
  }

  lemma NameAndText(a: Attribute)
    ensures RenderAttribute(a) == NameOf(a) + " " + TextOf(a)
  {
    hide FlagName, BoundName, QuoteValue;
    match a
    case FlagIs(f, on) =>
      assert FlagName(f) + (if on then " true" else " false") == FlagName(f) + " " + TextOf(a);
    case BoundIs(b, v) =>
    case DefaultIs(t) =>
      assert "DEFAULT " + t == "DEFAULT" + " " + t;
  }

  predicate UpperWord(s: string) {
    s != [] && forall i | 0 <= i < |s| :: 'A' <= s[i] <= 'Z'
  }

  lemma NamesAreWords(a: Attribute)
    ensures UpperWord(NameOf(a))
  {
  }

  lemma {:induction false} SealedName(name: string)
    requires UpperWord(name)
    ensures Sealed(name + " ")
  {
    forall i | 0 <= i < |name + " "| ensures Inert((name + " ")[i]) {}
    InertIsSealed(name + " ");
  }

  lemma EntrySeals(a: Attribute, last: bool)
    requires Carried(a, last)
    ensures Whole(RenderAttribute(a), TOP) && (!last ==> Sealed(RenderAttribute(a)))
  {
    hide Whole, Walk, RenderAttribute, NameOf, UpperWord, QuoteValue, TrailingBackslashes;
    NameAndText(a);
    NamesAreWords(a);
    SealedName(NameOf(a));
    SealedConcat(NameOf(a) + " ", TextOf(a));
    match a
    case FlagIs(_, on) => SealedBool(on);
    case BoundIs(_, v) => QuoteValueShape(v);
    case DefaultIs(t) =>
  }

  lemma SealedBool(on: bool)
    ensures Sealed(if on then "true" else "false")
  {
    InertIsSealed("true");
    InertIsSealed("false");
  }

  lemma WordsHaveNoSpace(name: string)
    requires UpperWord(name)
    ensures forall i | 0 <= i < |name| :: !IsSpace(name[i])
    ensures IsSpace(' ')
  {
  }

  /** A piece `NAME value`, trimmed value or none, parses as that name and value. */
  lemma PieceParses(c: Constraints, lead: string, name: string, value: string)
    requires UpperWord(name) && Trimmed(value) && (lead == "" || lead == " ")
    ensures ParseItem(c, lead + (name + " " + value)) == ParseNamed(c, name, value)
  {
    hide Trim, WordLength, ParseNamed, UpperWord, IsSpace;
    WordsHaveNoSpace(name);
    assert name != [] && Trimmed(name) by { NonEmptyWord(name); }
    TrimTrimmed([]);
    if value == [] {
      TrimAround(lead, name, " ");
      assert lead + (name + " " + value) == lead + name + " ";
      WordLengthAt(name, []);
      assert name + [] == name && name[..|name|] == name && name[|name|..] == [];
    } else {
      var item := name + " " + value;
      TrimAround(lead, item, []);
      assert lead + item + [] == lead + item;
      WordLengthAt(name, " " + value);
      assert item == name + (" " + value);
      assert item[..|name|] == name && item[|name|..] == " " + value + [];
      TrimAround(" ", value, []);
    }
  }

  lemma NonEmptyWord(name: string)
    requires UpperWord(name)
    ensures name != [] && Trimmed(name)
  {
    WordsHaveNoSpace(name);
  }

  lemma KeysOfNames(a: Attribute)
    ensures KeyOf(NameOf(a))
            == match a case FlagIs(f, _) => FlagKey(f) case BoundIs(b, _) => BoundKey(b) case DefaultIs(_) => DefaultKey
  {
    NamesAreWords(a);
    UpperIsUpper(NameOf(a));
  }

  lemma UpperIsUpper(s: string)
    requires UpperWord(s)
    ensures ToUpper(s) == s
  {
    hide ToUpper;
  }

  lemma BoolsParse(name: string, on: bool)
    ensures ParseBool(name, if on then "true" else "false") == Ok(on)
  {
    assert ToUpper("true") == "TRUE";
    assert ToUpper("false") == "FALSE";
  }

  lemma EntryParses(c: Constraints, lead: string, a: Attribute, last: bool)
    requires Carried(a, last) && (lead == "" || lead == " ")
    ensures ParseItem(c, lead + RenderAttribute(a)) == Ok(With(c, a))
  {
    hide ParseItem, NameOf, RenderAttribute, KeyOf, Whole, TrailingBackslashes, QuoteValue, ParseStringValue, ParseBool, Trim;
    NameAndText(a);
    NamesAreWords(a);
    KeysOfNames(a);
    match a {
      case FlagIs(_, on) =>
        TrimmedBool(on);
        BoolsParse(NameOf(a), on);
      case BoundIs(_, v) =>
        QuoteValueShape(v);
        ValueReadsBackIff(NameOf(a), v);
      case DefaultIs(t) =>
        TrimTrimmed(t);
    }
    PieceParses(c, lead, NameOf(a), TextOf(a));
  }

  lemma TrimmedBool(on: bool)
    ensures Trimmed(if on then "true" else "false")
  {
  }

  // ----- the whole block -----

  function WithAll(c: Constraints, parts: seq<Attribute>): Constraints
    decreases |parts|
  {
    if parts == [] then c else WithAll(With(c, parts[0]), parts[1..])
  }

  predicate AllCarried(parts: seq<Attribute>) {
    forall i | 0 <= i < |parts| :: Carried(parts[i], i == |parts| - 1)
  }

  lemma {:induction false} EntriesParse(c: Constraints, lead: string, parts: seq<Attribute>)
    requires AllCarried(parts) && (lead == "" || lead == " ")
    ensures ParseItems(c, Leading(lead, parts)) == Ok(WithAll(c, parts))
    decreases |parts|
  {
    hide ParseItem, RenderAttribute, Carried, With;
    if parts != [] {
      EntryParses(c, lead, parts[0], 0 == |parts| - 1);
      assert Leading(lead, parts)[1..] == Leading(" ", parts[1..]);
      forall i | 0 <= i < |parts[1..]| ensures Carried(parts[1..][i], i == |parts[1..]| - 1) {
        assert parts[1..][i] == parts[i + 1];
      }
      EntriesParse(With(c, parts[0]), " ", parts[1..]);
    }
  }

  lemma {:induction false} WithAllConcat(c: Constraints, a: seq<Attribute>, b: seq<Attribute>)
    ensures WithAll(c, a + b) == WithAll(WithAll(c, a), b)
    decreases |a|
  {
    hide With;
    if a == [] {
      assert a + b == b;
    } else {
      assert (a + b)[1..] == a[1..] + b;
      WithAllConcat(With(c, a[0]), a[1..], b);
    }
  }

  lemma WithFlag(c: Constraints, d: Constraints, f: Flag)
    ensures WithAll(d, FlagAttribute(c, f)) == d.(flags := d.flags + (if f in c.flags then {f} else {}))
  {
    if f in c.flags { assert [FlagIs(f, true)][1..] == []; }
  }

  lemma WithBound(c: Constraints, d: Constraints, b: Bound)
    ensures WithAll(d, BoundAttribute(c, b)) == if b in c.bounds then d.(bounds := d.bounds[b := c.bounds[b]]) else d
  {
    if b in c.bounds { assert [BoundIs(b, c.bounds[b])][1..] == []; }
  }

  function FlagsPart(c: Constraints): seq<Attribute> {
    FlagAttribute(c, Mandatory) + FlagAttribute(c, NotNull) + FlagAttribute(c, ReadOnly) + FlagAttribute(c, External)
  }

  function BoundsPart(c: Constraints): seq<Attribute> {
    BoundAttribute(c, Min) + BoundAttribute(c, Max) + BoundAttribute(c, Regexp)
  }

  lemma FlagsRebuild(c: Constraints)
    ensures WithAll(UNCONSTRAINED, FlagsPart(c)) == UNCONSTRAINED.(flags := c.flags)
  {
    hide FlagAttribute, WithAll;
    var m, n, r, x := FlagAttribute(c, Mandatory), FlagAttribute(c, NotNull), FlagAttribute(c, ReadOnly),
        FlagAttribute(c, External);
    WithAllConcat(UNCONSTRAINED, m + n + r, x);
    WithAllConcat(UNCONSTRAINED, m + n, r);
    WithAllConcat(UNCONSTRAINED, m, n);
    WithFlag(c, UNCONSTRAINED, Mandatory);
    WithFlag(c, WithAll(UNCONSTRAINED, m), NotNull);
    WithFlag(c, WithAll(UNCONSTRAINED, m + n), ReadOnly);
    WithFlag(c, WithAll(UNCONSTRAINED, m + n + r), External);
    var d := WithAll(UNCONSTRAINED, m + n + r + x);
    forall f: Flag ensures f in d.flags <==> f in c.flags { match f case Mandatory => case NotNull => case ReadOnly => case External => }
  }

  lemma BoundsRebuild(c: Constraints, d: Constraints)
    requires d.bounds == map[]
    ensures WithAll(d, BoundsPart(c)) == d.(bounds := c.bounds)
  {
    hide BoundAttribute, WithAll;
    var m, n, r := BoundAttribute(c, Min), BoundAttribute(c, Max), BoundAttribute(c, Regexp);
    WithAllConcat(d, m + n, r);
    WithAllConcat(d, m, n);
    WithBound(c, d, Min);
    WithBound(c, WithAll(d, m), Max);
    WithBound(c, WithAll(d, m + n), Regexp);
    var e := WithAll(d, m + n + r);
    forall b: Bound ensures b in e.bounds <==> b in c.bounds { match b case Min => case Max => case Regexp => }
    assert e.bounds == c.bounds;
  }

  /** The printed entries, set one after the other, rebuild the constraints. */
  lemma AttributesRebuild(c: Constraints)
    ensures WithAll(UNCONSTRAINED, Attributes(c)) == c
  {
    hide FlagAttribute, BoundAttribute, WithAll;
    var default := if c.default.Some? then [DefaultIs(c.default.value)] else [];
    assert Attributes(c) == FlagsPart(c) + (BoundsPart(c) + default);
    FlagsRebuild(c);
    var d := UNCONSTRAINED.(flags := c.flags);
    BoundsRebuild(c, d);
    WithAllConcat(UNCONSTRAINED, FlagsPart(c), BoundsPart(c) + default);
    WithAllConcat(d, BoundsPart(c), default);
    LastDefault(d.(bounds := c.bounds), c);
  }

  lemma LastDefault(d: Constraints, c: Constraints)
    requires d.default.None?
    ensures WithAll(d, if c.default.Some? then [DefaultIs(c.default.value)] else []) == d.(default := c.default)
  {
    if c.default.Some? { assert [DefaultIs(c.default.value)][1..] == []; }
  }

  /** Constraints whose every entry can be read back. */
  predicate Readable(c: Constraints) {
    AllCarried(Attributes(c))
  }

  lemma {:induction false} JoinedParses(parts: seq<Attribute>)
    requires AllCarried(parts) && parts != []
    ensures ParseInterior(Joined(parts)) == Ok(WithAll(UNCONSTRAINED, parts))
  {
    hide RenderAttribute, Whole, Sealed, ParseItems, Pieces, Carried, Joined;
    forall i | 0 <= i < |parts|
      ensures Whole(RenderAttribute(parts[i]), TOP) && (i < |parts| - 1 ==> Sealed(RenderAttribute(parts[i])))
    {
      EntrySeals(parts[i], i == |parts| - 1);
    }
    JoinedSplits("", parts);
    assert "" + Joined(parts) == Joined(parts);
    EntriesParse(UNCONSTRAINED, "", parts);
  }

  /** Parsing the interior of the printed block gives every constraint back. */
  lemma BlockReadsBack(c: Constraints)
    requires Readable(c) && RenderBlock(c) != ""
    ensures ParseInterior(RenderBlock(c)[1..|RenderBlock(c)| - 1]) == Ok(c)
  {
    hide ParseInterior, Attributes, AllCarried, Joined, WithAll;
    var j := Joined(Attributes(c));
    assert ("(" + j + ")")[1..|j| + 1] == j;
    JoinedParses(Attributes(c));
    AttributesRebuild(c);
  }

  // ----- the whole clause -----

  /** A canonical type name: upper case, trimmed, no quotes or parentheses. */
  predicate CanonicalType(t: string) {
    && t != [] && Trimmed(t)
    && forall i | 0 <= i < |t| :: !('a' <= t[i] <= 'z') && t[i] != '(' && t[i] != '\'' && t[i] != '"'
  }

  lemma {:induction false} NoParen(t: string, rest: string)
    requires forall i | 0 <= i < |t| :: t[i] != '(' && t[i] != '\'' && t[i] != '"'
    ensures FirstParen(t + "(" + rest, Outside) == Some(|t|) && FirstParen(t, Outside) == None
  {
    if t != [] {
      assert (t + "(" + rest)[1..] == t[1..] + "(" + rest;
      NoParen(t[1..], rest);
    }
  }

  /** A declaration's type clause reads back as its type and constraints. */
  lemma ClauseReadsBack(typeName: string, c: Constraints)
    requires CanonicalType(typeName) && Readable(c)
    ensures ParseClause(TypeClause(typeName, c)) == Ok((typeName, c))
  {
    hide FirstParen, ParseInterior, Readable, Joined, Trim, Attributes;
    assert ToUpper(typeName) == typeName by { CanonicalIsUpper(typeName); }
    TrimTrimmed(typeName);
    if RenderBlock(c) == "" {
      NoParen(typeName, "");
      AttributesRebuild(c);
    } else {
      var block := RenderBlock(c);
      var clause := typeName + " " + block;
      NoParen(typeName + " ", block[1..]);
      assert clause == typeName + " " + "(" + block[1..];
      assert clause[..|typeName| + 1] == [] + typeName + " " && clause[|typeName| + 1..] == block;
      TrimAround([], typeName, " ");
      BlockReadsBack(c);
    }
  }

  lemma CanonicalIsUpper(t: string)
    requires CanonicalType(t)
    ensures ToUpper(t) == t
  {
    hide ToUpper;
  }

  // ----- a default alone -----

  lemma DefaultShrinks(c: Constraints, piece: string)
    ensures var r := ParseItem(c, piece);
            r.Ok? && r.value.default != c.default ==>
              r.value.default.Some? && Trimmed(r.value.default.value)
              && (r.value.default.value == [] || |r.value.default.value| + 8 <= |piece|)
  {
    hide Trim, WordLength, Trimmed, IsSpace, ParseStringValue, ParseBool;
    var item := Trim(piece);
    TrimIsTrimmed(piece);
    if item != [] {
      var n := WordLength(item);
      var value := Trim(item[n..]);
      TrimIsTrimmed(item[n..]);
      TrimIsTrimmed(value);
      if KeyOf(item[..n]).DefaultKey? {
        assert |item[..n]| == |ToUpper(item[..n])| == |"DEFAULT"| == n;
        assert n < |item| ==> item[n..] != [] && item[n..][0] == item[n];
      }
    }
  }

  predicate DefaultWithin(c: Constraints, n: nat) {
    c.default.Some? ==> Trimmed(c.default.value) && (c.default.value == [] || |c.default.value| + 8 <= n)
  }

  lemma {:induction false} DefaultsShrink(c: Constraints, pieces: seq<string>, n: nat)
    requires DefaultWithin(c, n) && forall p | p in pieces :: |p| <= n
    ensures ParseItems(c, pieces).Ok? ==> DefaultWithin(ParseItems(c, pieces).value, n)
    decreases |pieces|
  {
    hide ParseItem, Trimmed;
    if pieces != [] {
      assert pieces[0] in pieces;
      DefaultShrinks(c, pieces[0]);
      if ParseItem(c, pieces[0]).Ok? { DefaultsShrink(ParseItem(c, pieces[0]).value, pieces[1..], n); }
    }
  }

  lemma {:induction false} PiecesAreShorter(s: string, p: Pos, cur: string)
    ensures forall x | x in Pieces(s, p, cur) :: |x| <= |cur| + |s|
    ensures !Whole(s, p) ==> forall x | x in Pieces(s, p, cur) :: |x| < |cur| + |s|
    decreases |s|
  {
    if s != [] {
      if CutsAt(p, s[0]) {
        PiecesAreShorter(s[1..], p, []);
      } else {
        PiecesAreShorter(s[1..], Move(p, s[0]), cur + [s[0]]);
      }
    }
  }

  /** A block holding only a default reads back exactly when its text is trimmed and has no
      comma outside quotes and brackets. */
  lemma DefaultReadsBackIff(d: string)
    ensures var c := Constraints({}, map[], Some(d));
            ParseInterior(Joined(Attributes(c))) == Ok(c) <==> Trimmed(d) && Whole(d, TOP)
  {
    hide Trimmed, Whole, ParseItems, Pieces;
    var c := Constraints({}, map[], Some(d));
    assert Attributes(c) == [DefaultIs(d)];
    assert Joined([DefaultIs(d)]) == "DEFAULT " + d;
    if Trimmed(d) && Whole(d, TOP) {
      assert AllCarried([DefaultIs(d)]);
      JoinedParses([DefaultIs(d)]);
      AttributesRebuild(c);
    } else {
      var s := "DEFAULT " + d;
      SealedName("DEFAULT");
      SealedConcat("DEFAULT" + " ", d);
      assert s == "DEFAULT" + " " + d;
      PiecesAreShorter(s, TOP, []);
      var n := if Whole(d, TOP) then |s| else |s| - 1;
      DefaultsShrink(UNCONSTRAINED, Pieces(s, TOP, []), n);
      EmptyIsWhole();
    }
  }

  lemma EmptyIsWhole()
    ensures Whole([], TOP)
  {
  }
}
