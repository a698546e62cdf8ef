/** Exactly which constraints a printed attribute block gives back. The argument counts commas:
    every cut spends one, and every constraint read back must account for its own. */
module AttributeExactness {
  import opened Text
  import opened SqlText
  import opened SchemaModel
  import opened AttributeBlock
  import opened AttributeRoundTrip

  // ----- counting commas -----

  function Commas(s: string): nat {
    if s == [] then 0 else (if s[0] == ',' then 1 else 0) + Commas(s[1..])
  }

  lemma {:induction false} CommasConcat(a: string, b: string)
    ensures Commas(a + b) == Commas(a) + Commas(b)
  {
    if a == [] {
      assert a + b == b;
    } else {
      assert (a + b)[1..] == a[1..] + b;
      CommasConcat(a[1..], b);
    }
  }

  lemma CommasSlice(s: string, a: nat, b: nat)
    requires a <= b <= |s|
    ensures Commas(s[a..b]) <= Commas(s)
  {
    assert s == s[..a] + s[a..b] + s[b..];
    CommasConcat(s[..a] + s[a..b], s[b..]);
    CommasConcat(s[..a], s[a..b]);
  }

  /** A comma between two places tells their counts apart. */
  lemma CommasBefore(s: string, i: nat, j: nat)
    requires i < j <= |s| && s[i] == ','
    ensures Commas(s[..i]) < Commas(s[..j])
  {
    assert s[..j] == s[..i] + ([','] + s[i + 1..j]);
    CommasConcat(s[..i], [','] + s[i + 1..j]);
    assert ([','] + s[i + 1..j])[1..] == s[i + 1..j];
  }

  lemma CommasTrim(s: string)
    ensures Commas(Trim(s)) <= Commas(s)
  {
    hide Commas, Trim;
    var before, after := TrimmedParts(s);
    CommasConcat(before + Trim(s), after);
    CommasConcat(before, Trim(s));
  }

  lemma {:induction false} NoCommas(s: string)
    requires ',' !in s
    ensures Commas(s) == 0
  {
    if s != [] { NoCommas(s[1..]); }
  }

  lemma {:induction false} CommasEscape(v: string)
    ensures Commas(EscapeQuotes(v)) == Commas(v)
  {
    if v != [] {
      CommasEscape(v[1..]);
      var head := if v[0] == '"' then ['\\', '"'] else [v[0]];
      CommasConcat(head, EscapeQuotes(v[1..]));
      if v[0] == '"' { assert head[1..] == ['"']; } else { assert head[1..] == []; }
    }
  }

  lemma CommasQuote(v: string)
    ensures Commas(QuoteValue(v)) == Commas(v)
  {
    hide Commas, EscapeQuotes;
    CommasEscape(v);
    CommasConcat(['"'] + EscapeQuotes(v), ['"']);
    CommasConcat(['"'], EscapeQuotes(v));
    NoCommas(['"']);
  }

  /** The commas of what an entry sets. */
  function AttributeCommas(a: Attribute): nat {
    match a
    case FlagIs(_, _) => 0
    case BoundIs(_, v) => Commas(v)
    case DefaultIs(t) => Commas(t)
  }

  lemma CommasText(a: Attribute)
    ensures Commas(TextOf(a)) == AttributeCommas(a)
  {
    hide Commas, QuoteValue;
    match a
    case FlagIs(_, on) => NoCommas(TextOf(a));
    case BoundIs(_, v) => CommasQuote(v);
    case DefaultIs(_) =>
  }

  /** What precedes an entry's text. */
  function Head(lead: string, a: Attribute): string {
    lead + NameOf(a) + " "
  }

  lemma CommasHead(lead: string, a: Attribute)
    requires lead == "" || lead == " "
    ensures Commas(Head(lead, a)) == 0 && ',' !in Head(lead, a)
    ensures lead + RenderAttribute(a) == Head(lead, a) + TextOf(a)
    ensures Commas(lead + RenderAttribute(a)) == AttributeCommas(a)
  {
    hide Commas, NameOf, TextOf, RenderAttribute;
    NameAndText(a);
    NamesAreWords(a);
    assert ',' !in NameOf(a) by { assert UpperWord(NameOf(a)); }
    NoCommas(Head(lead, a));
    assert lead + RenderAttribute(a) == Head(lead, a) + TextOf(a);
    CommasConcat(Head(lead, a), TextOf(a));
    CommasText(a);
  }

  // ----- what constraints weigh -----

  function BoundWeight(c: Constraints, b: Bound): nat {
    if b in c.bounds then 1 + Commas(c.bounds[b]) else 0
  }

  function FlagWeight(c: Constraints, f: Flag): nat {
    if f in c.flags then 1 else 0
  }

  function FlagsWeight(c: Constraints): nat {
    FlagWeight(c, Mandatory) + FlagWeight(c, NotNull) + FlagWeight(c, ReadOnly) + FlagWeight(c, External)
  }

  function BoundsWeight(c: Constraints): nat {
    BoundWeight(c, Min) + BoundWeight(c, Max) + BoundWeight(c, Regexp)
  }

  function DefaultWeight(c: Constraints): nat {
    if c.default.Some? then 1 + Commas(c.default.value) else 0
  }

  /** One for each constraint, and its commas. */
  function Weight(c: Constraints): nat {
    FlagsWeight(c) + BoundsWeight(c) + DefaultWeight(c)
  }

  /** The entry sets something not set before. */
  predicate Fresh(c: Constraints, a: Attribute) {
    match a
    case FlagIs(f, on) => on && f !in c.flags
    case BoundIs(b, _) => b !in c.bounds
    case DefaultIs(_) => c.default.None?
  }

  lemma FlagWithWeighs(c: Constraints, d: Constraints, f: Flag, on: bool)
    requires d.flags == if on then c.flags + {f} else c.flags - {f}
    ensures FlagsWeight(d) <= FlagsWeight(c) + 1
    ensures FlagsWeight(d) == FlagsWeight(c) + 1 ==> on && f !in c.flags
  {
    forall g: Flag | g != f ensures FlagWeight(d, g) == FlagWeight(c, g) {}
  }

  lemma BoundWithWeighs(c: Constraints, d: Constraints, b: Bound, v: string)
    requires d.bounds == c.bounds[b := v]
    ensures BoundsWeight(d) <= BoundsWeight(c) + 1 + Commas(v)
    ensures BoundsWeight(d) == BoundsWeight(c) + 1 + Commas(v) ==> b !in c.bounds
  {
    hide Commas;
    forall x: Bound | x != b ensures BoundWeight(d, x) == BoundWeight(c, x) {}
    assert BoundWeight(d, b) == 1 + Commas(v);
  }

  lemma SameFlagsWeight(c: Constraints, d: Constraints)
    requires d.flags == c.flags
    ensures FlagsWeight(d) == FlagsWeight(c)
  {
  }

  lemma SameBoundsWeight(c: Constraints, d: Constraints)
    requires d.bounds == c.bounds
    ensures BoundsWeight(d) == BoundsWeight(c)
  {
    hide Commas;
  }

  lemma WithWeighs(c: Constraints, a: Attribute)
    ensures Weight(With(c, a)) <= Weight(c) + 1 + AttributeCommas(a)
    ensures Weight(With(c, a)) == Weight(c) + 1 + AttributeCommas(a) ==> Fresh(c, a)
  {
    hide Commas, FlagsWeight, BoundsWeight;
    var d := With(c, a);
    match a
    case FlagIs(f, on) => FlagWithWeighs(c, d, f, on); SameBoundsWeight(c, d);
    case BoundIs(b, v) => BoundWithWeighs(c, d, b, v); SameFlagsWeight(c, d);
    case DefaultIs(t) => SameFlagsWeight(c, d); SameBoundsWeight(c, d);
  }

  /** What one piece sets, if anything. */
  lemma ItemSets(c: Constraints, piece: string) returns (a: Option<Attribute>)
    requires ParseItem(c, piece).Ok?
    ensures ParseItem(c, piece).value == if a.None? then c else With(c, a.value)
    ensures a.Some? ==> AttributeCommas(a.value) <= Commas(piece)
  {
    hide Commas, Trim, WordLength, KeyOf, ParseBool;
    var item := Trim(piece);
    CommasTrim(piece);
    if item == [] {
      a := None;
    } else {
      var n := WordLength(item);
      var value := Trim(item[n..]);
      CommasSlice(item, n, |item|);
      assert item[n..|item|] == item[n..];
      CommasTrim(item[n..]);
      match KeyOf(item[..n])
      case FlagKey(f) => a := Some(FlagIs(f, ParseBool(item[..n], value).value));
      case BoundKey(b) =>
        var v := ParseStringValue(item[..n], value).value;
        if |value| >= 2 { CommasSlice(value, 1, |value| - 1); }
        a := Some(BoundIs(b, v));
      case DefaultKey =>
        CommasTrim(value);
        a := Some(DefaultIs(Trim(value)));
    }
  }

  function TotalCommas(pieces: seq<string>): nat {
    if pieces == [] then 0 else 1 + Commas(pieces[0]) + TotalCommas(pieces[1..])
  }

  lemma {:induction false} PiecesWeigh(s: string, p: Pos, cur: string)
    ensures TotalCommas(Pieces(s, p, cur)) == 1 + Commas(cur) + Commas(s)
    decreases |s|
  {
    if s != [] {
      if CutsAt(p, s[0]) {
        PiecesWeigh(s[1..], p, []);
        assert ([cur] + Pieces(s[1..], p, []))[1..] == Pieces(s[1..], p, []);
      } else {
        PiecesWeigh(s[1..], Move(p, s[0]), cur + [s[0]]);
        CommasConcat(cur, [s[0]]);
        assert [s[0]][1..] == [];
      }
    } else {
      assert [cur][1..] == [];
    }
  }

  /** Everything `c` has, `d` has. */
  predicate Kept(c: Constraints, d: Constraints) {
    && c.flags <= d.flags
    && (forall b | b in c.bounds :: b in d.bounds && d.bounds[b] == c.bounds[b])
    && (c.default.Some? ==> d.default == c.default)
  }

  lemma {:induction false} ItemsWeigh(c: Constraints, pieces: seq<string>)
    requires ParseItems(c, pieces).Ok?
    ensures var d := ParseItems(c, pieces).value;
            && Weight(d) <= Weight(c) + TotalCommas(pieces)
            && (Weight(d) == Weight(c) + TotalCommas(pieces) ==> Kept(c, d))
    decreases |pieces|
  {
    hide ParseItem, Weight, Commas, With;
    if pieces != [] {
      var a := ItemSets(c, pieces[0]);
      var next := ParseItem(c, pieces[0]).value;
      ItemsWeigh(next, pieces[1..]);
      if a.Some? {
        WithWeighs(c, a.value);
        if Fresh(c, a.value) { FreshKeeps(c, a.value); }
      }
    }
  }

  lemma FreshKeeps(c: Constraints, a: Attribute)
    requires Fresh(c, a)
    ensures Kept(c, With(c, a))
  {
  }

  // ----- the first piece -----

  /** Where the first cut falls, if anywhere. */
  lemma {:induction false} FirstCut(s: string, p: Pos, cur: string) returns (k: nat)
    ensures k <= |s| && Whole(s[..k], p)
    ensures k < |s| ==> s[k] == ',' && Walk(s[..k], p) == TOP && Pieces(s, p, cur) == [cur + s[..k]] + Pieces(s[k + 1..], TOP, [])
    ensures k == |s| ==> Pieces(s, p, cur) == [cur + s]
    decreases |s|
  {
    if s == [] {
      k := 0;
      assert cur + s == cur;
    } else if CutsAt(p, s[0]) {
      k := 0;
      assert p == TOP && s[..0] == [] && cur + s[..0] == cur;
    } else {
      var j := FirstCut(s[1..], Move(p, s[0]), cur + [s[0]]);
      k := j + 1;
      assert s[..k][1..] == s[1..][..j];
      assert cur + [s[0]] + s[1..][..j] == cur + s[..k];
      if k == |s| { assert cur + [s[0]] + s[1..] == cur + s && s[..k] == s; }
    }
  }

  /** A piece that begins like a printed entry is read under that entry's name. */
  lemma PieceReadsName(c: Constraints, lead: string, name: string, x: string)
    requires UpperWord(name) && (lead == "" || lead == " ")
    ensures ParseItem(c, lead + name + " " + x) == ParseNamed(c, name, Trim(x))
  {
    hide Trim, WordLength, ParseNamed, UpperWord, IsSpace;
    var value := Trim(x);
    TrimIsTrimmed(x);
    var before, after := TrimmedParts(x);
    WordsHaveNoSpace(name);
    NonEmptyWord(name);
    TrimTrimmed([]);
    if value == [] {
      BlankSpace(before + value + after);
      TrimBlank(x);
      TrimAround(lead, name, " " + x);
      assert lead + name + " " + x == lead + name + (" " + x);
      WordLengthAt(name, []);
      assert name + [] == name && name[..|name|] == name && name[|name|..] == [];
    } else {
      BlankSpace(before);
      var item := name + (" " + before) + value;
      EndsLike(name, " " + before, value);
      TrimAround(lead, item, after);
      assert lead + name + " " + x == lead + item + after;
      WordLengthAt(name, " " + before + value);
      assert item == name + (" " + before + value);
      assert item[..|name|] == name && item[|name|..] == " " + before + value + [];
      TrimAround(" " + before, value, []);
    }
  }

  lemma BlankSpace(s: string)
    requires Blank(s)
    ensures Blank(" " + s)
  {
  }

  lemma EndsLike(a: string, m: string, b: string)
    requires a != [] && b != [] && Trimmed(a) && Trimmed(b)
    ensures Trimmed(a + m + b) && a + m + b != []
  {
    assert (a + m + b)[0] == a[0] && (a + m + b)[|a + m + b| - 1] == b[|b| - 1];
  }

  /** `d` has exactly what the entry sets. */
  predicate Has(d: Constraints, a: Attribute) {
    match a
    case FlagIs(f, on) => on && f in d.flags
    case BoundIs(b, v) => b in d.bounds && d.bounds[b] == v
    case DefaultIs(t) => d.default == Some(t)
  }

  /** A piece read under an entry's name, that sets something fresh which is kept to an end that
      has the entry, reads the entry's own value. */
  lemma ReadsOwnValue(c: Constraints, lead: string, a: Attribute, x: string, end: Constraints)
    requires lead == "" || lead == " "
    requires ParseItem(c, lead + NameOf(a) + " " + x).Ok? && Has(end, a)
    requires Weight(ParseItem(c, lead + NameOf(a) + " " + x).value) == Weight(c) + 1 + Commas(x)
    requires Kept(ParseItem(c, lead + NameOf(a) + " " + x).value, end)
    ensures AttributeCommas(a) == Commas(x)
    ensures a.BoundIs? ==> ParseStringValue(NameOf(a), Trim(x)) == Ok(a.value)
    ensures a.DefaultIs? ==> Trim(Trim(x)) == a.text
  {
    hide Commas, Trim, Weight, KeyOf, NameOf, ParseItem, ParseBool;
    NamesAreWords(a);
    KeysOfNames(a);
    PieceReadsName(c, lead, NameOf(a), x);
    CommasTrim(x);
    var value := Trim(x);
    match a {
      case FlagIs(f, _) =>
        var b := ParseBool(NameOf(a), value);
        WithWeighs(c, FlagIs(f, b.value));
      case BoundIs(b, _) =>
        var v := ParseStringValue(NameOf(a), value);
        if |value| >= 2 { CommasSlice(value, 1, |value| - 1); }
        WithWeighs(c, BoundIs(b, v.value));
      case DefaultIs(_) =>
        CommasTrim(value);
        WithWeighs(c, DefaultIs(Trim(value)));
    }
  }

  // ----- from a block read back to its entries -----

  lemma SealedIsEven(v: string)
    requires '"' !in v && Sealed(QuoteValue(v))
    ensures TrailingBackslashes(v) % 2 == 0
  {
    hide Walk, Whole, TrailingBackslashes;
    EscapingGrows(v);
    if v != [] && PlainText(v) {
      PlainHasNoBackslash(v);
    } else {
      var q := ['"'] + v + ['"'];
      var p := Pos(Double(false), 0);
      OneStep(TOP, '"', v + ['"']);
      assert q == ['"'] + (v + ['"']);
      InsideQuotes(v);
      WalkConcat(v, ['"'], p);
      OneStep(Walk(v, p), '"', []);
      assert ['"'] + [] == ['"'];
    }
  }

  lemma PlainHasNoBackslash(v: string)
    requires v != [] && PlainText(v)
    ensures TrailingBackslashes(v) == 0
  {
    assert PlainChar(v[|v| - 1]);
  }

  lemma QuoteValueIsTrimmed(v: string)
    ensures Trimmed(QuoteValue(v))
  {
    hide EscapeQuotes;
    if v != [] && PlainText(v) { assert PlainChar(v[0]) && PlainChar(v[|v| - 1]); }
  }

  /** An entry whose own text was read back, from text that does not split and, unless it is the
      last, leaves nothing open. */
  lemma OwnValueIsCarried(a: Attribute, last: bool)
    requires a.BoundIs? ==> ParseStringValue(NameOf(a), Trim(TextOf(a))) == Ok(a.value)
    requires a.DefaultIs? ==> last && Trim(Trim(a.text)) == a.text
    requires Whole(TextOf(a), TOP) && (!last ==> Sealed(TextOf(a)))
    ensures Carried(a, last)
  {
    hide Trim, Whole, Walk, TrailingBackslashes, QuoteValue, ParseStringValue;
    match a
    case FlagIs(_, _) =>
    case BoundIs(_, v) =>
      QuoteValueIsTrimmed(v);
      TrimTrimmed(QuoteValue(v));
      ValueReadsBackIff(NameOf(a), v);
      if !last { SealedIsEven(v); }
    case DefaultIs(t) => TrimIsTrimmed(Trim(t));
  }

  lemma HeadSeals(lead: string, a: Attribute)
    requires lead == "" || lead == " "
    ensures Sealed(Head(lead, a))
  {
    hide NameOf, Walk, Whole;
    NamesAreWords(a);
    forall i | 0 <= i < |Head(lead, a)| ensures Inert(Head(lead, a)[i]) { HeadChar(lead, a, i); }
    InertIsSealed(Head(lead, a));
  }

  lemma HeadChar(lead: string, a: Attribute, i: nat)
    requires (lead == "" || lead == " ") && UpperWord(NameOf(a)) && i < |Head(lead, a)|
    ensures Inert(Head(lead, a)[i])
  {
    hide NameOf;
    var name := NameOf(a);
    if |lead| <= i < |lead| + |name| { assert Head(lead, a)[i] == name[i - |lead|]; }
  }

  /** The first cut of joined entries that must account for all their commas: at the first
      separator, or nowhere when there is only one entry. */
  lemma CutAtSeparator(lead: string, parts: seq<Attribute>, k: nat)
    requires parts != [] && (lead == "" || lead == " ")
    requires var text := lead + Joined(parts);
             k <= |text| && (k < |text| ==> text[k] == ',') && Commas(text[..k]) == AttributeCommas(parts[0])
    ensures k == |lead + RenderAttribute(parts[0])|
    ensures (lead + Joined(parts))[..k] == lead + RenderAttribute(parts[0])
    ensures |parts| > 1 ==> k < |lead + Joined(parts)| && (lead + Joined(parts))[k + 1..] == " " + Joined(parts[1..])
  {
    hide Commas, AttributeCommas, RenderAttribute;
    var first := lead + RenderAttribute(parts[0]);
    CommasHead(lead, parts[0]);
    if |parts| == 1 {
      CutAtEnd(first, k);
    } else {
      hide Joined;
      JoinedMore(lead, parts);
      CutAtComma(first, " " + Joined(parts[1..]), k);
    }
  }

  lemma CutAtEnd(text: string, k: nat)
    requires k <= |text| && (k < |text| ==> text[k] == ',') && Commas(text[..k]) == Commas(text)
    ensures k == |text| && text[..k] == text
  {
    hide Commas;
    assert text[..|text|] == text;
    if k < |text| { CommasBefore(text, k, |text|); }
  }

  lemma CutAtComma(first: string, rest: string, k: nat)
    requires var text := first + ("," + rest);
             k <= |text| && (k < |text| ==> text[k] == ',') && Commas(text[..k]) == Commas(first)
    ensures var text := first + ("," + rest);
            k == |first| && k < |text| && text[..k] == first && text[k + 1..] == rest
  {
    hide Commas;
    var text, n := first + ("," + rest), |first|;
    assert text[..n] == first && text[n] == ',';
    assert text[n + 1..] == rest;
    if k < n { CommasBefore(text, k, n); }
    if k > n { CommasBefore(text, n, k); }
  }

  lemma {:induction false} ReadBackIsCarried(c: Constraints, lead: string, parts: seq<Attribute>, end: Constraints)
    requires parts != [] && (lead == "" || lead == " ")
    requires ParseItems(c, Pieces(lead + Joined(parts), TOP, [])) == Ok(end)
    requires Weight(end) == Weight(c) + 1 + Commas(lead + Joined(parts))
    requires forall i | 0 <= i < |parts| :: Has(end, parts[i]) && (i < |parts| - 1 ==> !parts[i].DefaultIs?)
    ensures AllCarried(parts)
    decreases |parts|
  {
    hide Commas, Weight, RenderAttribute, NameOf, TextOf, Whole, Walk, ParseItem, Carried, Joined, AttributeCommas,
         Has, Kept, Pieces, Sealed, Head;
    var text := lead + Joined(parts);
    var k := FirstCut(text, TOP, []);
    var piece := text[..k];
    assert [] + piece == piece && [] + text == text;
    if k == |text| { assert text[..k] == text; }
    var rest := if k == |text| then [] else Pieces(text[k + 1..], TOP, []);
    assert Pieces(text, TOP, []) == [piece] + rest;
    assert ([piece] + rest)[1..] == rest;
    var next := ParseItem(c, piece).value;
    PiecesWeigh(text, TOP, []);
    NoCommas([]);
    var a := ItemSets(c, piece);
    if a.Some? { WithWeighs(c, a.value); }
    ItemsWeigh(next, rest);
    assert Weight(next) == Weight(c) + 1 + Commas(piece) && Kept(next, end);

    var x := BeginsWithHead(lead, parts, k);
    HeadIs(lead, parts[0]);
    assert Commas(x) == Commas(piece) by { CommasHead(lead, parts[0]); CommasConcat(Head(lead, parts[0]), x); }
    assert Has(end, parts[0]);
    ReadsOwnValue(c, lead, parts[0], x, end);
    CutAtSeparator(lead, parts, k);
    CommasHead(lead, parts[0]);
    assert x == TextOf(parts[0]) by { SameTail(Head(lead, parts[0]), x, TextOf(parts[0])); }
    HeadSeals(lead, parts[0]);
    SealedConcat(Head(lead, parts[0]), x);
    assert Whole(x, TOP) && (|parts| > 1 ==> Sealed(x)) by { SealedIs(x); }
    TextOfDefault(parts[0]);
    OwnValueIsCarried(parts[0], |parts| == 1);
    if |parts| > 1 {
      assert Commas(text[k + 1..]) + 1 == TotalCommas(rest) by { PiecesWeigh(text[k + 1..], TOP, []); }
      forall i | 0 <= i < |parts[1..]| ensures Has(end, parts[1..][i]) && (i < |parts[1..]| - 1 ==> !parts[1..][i].DefaultIs?) {
        assert parts[1..][i] == parts[i + 1];
      }
      ReadBackIsCarried(next, " ", parts[1..], end);
      forall i | 0 <= i < |parts| ensures Carried(parts[i], i == |parts| - 1) {
        if i > 0 { assert parts[i] == parts[1..][i - 1]; }
      }
    }
  }

  lemma SealedIs(x: string)
    ensures Sealed(x) <==> Whole(x, TOP) && Walk(x, TOP) == TOP
  {
  }

  lemma SameTail(a: string, x: string, y: string)
    requires a + x == a + y
    ensures x == y
  {
    assert (a + x)[|a|..] == x && (a + y)[|a|..] == y;
  }

  lemma TextOfDefault(a: Attribute)
    ensures a.DefaultIs? ==> TextOf(a) == a.text
  {
  }

  lemma HeadIs(lead: string, a: Attribute)
    ensures Head(lead, a) == lead + NameOf(a) + " "
  {
  }

  /** No cut falls within the name of the first entry. */
  lemma BeginsWithHead(lead: string, parts: seq<Attribute>, k: nat) returns (x: string)
    requires parts != [] && (lead == "" || lead == " ")
    requires var text := lead + Joined(parts); k <= |text| && (k < |text| ==> text[k] == ',')
    ensures (lead + Joined(parts))[..k] == Head(lead, parts[0]) + x
  {
    hide RenderAttribute, TextOf, Commas, Head;
    var text, head := lead + Joined(parts), Head(lead, parts[0]);
    CommasHead(lead, parts[0]);
    var own := TextOf(parts[0]);
    var tail := if |parts| == 1 then "" else "," + (" " + Joined(parts[1..]));
    if |parts| == 1 {
      assert own + tail == own;
    } else {
      JoinedMore(lead, parts);
      Regroup(head, own, tail);
    }
    hide Joined;
    assert text == head + (own + tail);
    FoundPast(head, own + tail, ',', k);
    assert text[..|head|] == head;
    x := text[|head|..k];
  }

  /** What a text does not have is not found within it. */
  lemma FoundPast(head: string, tail: string, c: char, k: nat)
    requires c !in head && k <= |head + tail| && (k < |head + tail| ==> (head + tail)[k] == c)
    ensures |head| <= k
  {
    assert forall i | 0 <= i < |head| :: (head + tail)[i] == head[i];
  }

  // ----- the block -----

  function PartsWeight(parts: seq<Attribute>): nat {
    if parts == [] then 0 else 1 + AttributeCommas(parts[0]) + PartsWeight(parts[1..])
  }

  lemma {:induction false} PartsWeightConcat(a: seq<Attribute>, b: seq<Attribute>)
    ensures PartsWeight(a + b) == PartsWeight(a) + PartsWeight(b)
  {
    if a == [] {
      assert a + b == b;
    } else {
      assert (a + b)[1..] == a[1..] + b;
      PartsWeightConcat(a[1..], b);
    }
  }

  lemma {:induction false} JoinedWeighs(parts: seq<Attribute>)
    requires parts != []
    ensures PartsWeight(parts) == 1 + Commas(Joined(parts))
  {
    hide Commas, RenderAttribute, AttributeCommas;
    CommasHead("", parts[0]);
    assert "" + RenderAttribute(parts[0]) == RenderAttribute(parts[0]);
    if |parts| == 1 {
      assert parts[1..] == [];
    } else {
      JoinedWeighs(parts[1..]);
      JoinedMore("", parts);
      assert "" + Joined(parts) == Joined(parts);
      CommasConcat("" + RenderAttribute(parts[0]), "," + (" " + Joined(parts[1..])));
      CommasConcat(",", " " + Joined(parts[1..]));
      CommasConcat(" ", Joined(parts[1..]));
      Separators();
    }
  }

  lemma Separators()
    ensures Commas(",") == 1 && Commas(" ") == 0
  {
    assert ","[1..] == "";
  }

  lemma FlagPartWeighs(c: Constraints, f: Flag)
    ensures PartsWeight(FlagAttribute(c, f)) == FlagWeight(c, f)
  {
    if f in c.flags { assert [FlagIs(f, true)][1..] == []; }
  }

  lemma BoundPartWeighs(c: Constraints, b: Bound)
    ensures PartsWeight(BoundAttribute(c, b)) == BoundWeight(c, b)
  {
    hide Commas;
    if b in c.bounds { assert [BoundIs(b, c.bounds[b])][1..] == []; }
  }

  lemma AttributesWeigh(c: Constraints)
    ensures PartsWeight(Attributes(c)) == Weight(c)
  {
    hide Commas, FlagAttribute, BoundAttribute, FlagWeight, BoundWeight, PartsWeight;
    var f1, f2, f3, f4 := FlagAttribute(c, Mandatory), FlagAttribute(c, NotNull), FlagAttribute(c, ReadOnly),
        FlagAttribute(c, External);
    var b1, b2, b3 := BoundAttribute(c, Min), BoundAttribute(c, Max), BoundAttribute(c, Regexp);
    var d := if c.default.Some? then [DefaultIs(c.default.value)] else [];
    PartsWeightConcat(f1 + f2 + f3 + f4 + b1 + b2 + b3, d);
    PartsWeightConcat(f1 + f2 + f3 + f4 + b1 + b2, b3);
    PartsWeightConcat(f1 + f2 + f3 + f4 + b1, b2);
    PartsWeightConcat(f1 + f2 + f3 + f4, b1);
    PartsWeightConcat(f1 + f2 + f3, f4);
    PartsWeightConcat(f1 + f2, f3);
    PartsWeightConcat(f1, f2);
    FlagPartWeighs(c, Mandatory); FlagPartWeighs(c, NotNull); FlagPartWeighs(c, ReadOnly); FlagPartWeighs(c, External);
    BoundPartWeighs(c, Min); BoundPartWeighs(c, Max); BoundPartWeighs(c, Regexp);
    DefaultPartWeighs(c);
  }

  lemma DefaultPartWeighs(c: Constraints)
    ensures PartsWeight(if c.default.Some? then [DefaultIs(c.default.value)] else []) == DefaultWeight(c)
  {
    hide Commas;
    if c.default.Some? { assert [DefaultIs(c.default.value)][1..] == []; }
  }

  /** The entries of `c` are what it has, and only the last can be the default. */
  lemma AttributesAreHad(c: Constraints)
    ensures var parts := Attributes(c);
            forall i | 0 <= i < |parts| :: Has(c, parts[i]) && (i < |parts| - 1 ==> !parts[i].DefaultIs?)
  {
    hide FlagAttribute, BoundAttribute;
    var f := FlagsPart(c);
    var b := BoundsPart(c);
    var d := if c.default.Some? then [DefaultIs(c.default.value)] else [];
    assert Attributes(c) == f + b + d;
    forall x | x in f + b ensures Has(c, x) && !x.DefaultIs? { PartsAreHad(c, x); }
    var parts := Attributes(c);
    forall i | 0 <= i < |parts| ensures Has(c, parts[i]) && (i < |parts| - 1 ==> !parts[i].DefaultIs?) {
      if i < |f + b| { assert parts[i] == (f + b)[i] && (f + b)[i] in f + b; }
    }
  }

  lemma PartsAreHad(c: Constraints, x: Attribute)
    requires x in FlagsPart(c) + BoundsPart(c)
    ensures Has(c, x) && !x.DefaultIs?
  {
    if x in FlagsPart(c) { FlagPartsAreHad(c, x); } else { BoundPartsAreHad(c, x); }
  }

  lemma FlagPartsAreHad(c: Constraints, x: Attribute)
    requires x in FlagsPart(c)
    ensures Has(c, x) && !x.DefaultIs?
  {
    assert exists f :: x in FlagAttribute(c, f) by {
      hide FlagAttribute;
      assert x in FlagAttribute(c, Mandatory) || x in FlagAttribute(c, NotNull)
             || x in FlagAttribute(c, ReadOnly) || x in FlagAttribute(c, External);
    }
  }

  lemma BoundPartsAreHad(c: Constraints, x: Attribute)
    requires x in BoundsPart(c)
    ensures Has(c, x) && !x.DefaultIs?
  {
    assert exists b :: x in BoundAttribute(c, b) by {
      hide BoundAttribute;
      assert x in BoundAttribute(c, Min) || x in BoundAttribute(c, Max) || x in BoundAttribute(c, Regexp);
    }
  }

  /** A printed block gives its constraints back exactly when every entry can be read back: no
      bound has a double quote, none but the last entry leaves an escape pending, and the default
      is trimmed and has no comma outside quotes and brackets. */
  lemma BlockReadsBackIff(c: Constraints)
    requires RenderBlock(c) != ""
    ensures ParseInterior(RenderBlock(c)[1..|RenderBlock(c)| - 1]) == Ok(c) <==> Readable(c)
  {
    hide Joined, AllCarried, Weight, Commas, Has, ParseItems, Pieces, Attributes, PartsWeight;
    var parts := Attributes(c);
    var j := Joined(parts);
    assert ("(" + j + ")")[1..|j| + 1] == j;
    if Readable(c) { BlockReadsBack(c); }
    if ParseInterior(j) == Ok(c) {
      AttributesAreHad(c);
      AttributesWeigh(c);
      JoinedWeighs(parts);
      assert "" + j == j;
      NothingWeighs();
      ReadBackIsCarried(UNCONSTRAINED, "", parts, c);
    }
  }

  lemma NothingWeighs()
    ensures Weight(UNCONSTRAINED) == 0
  {
  }

  /** And so does a whole type clause. */
  lemma ClauseReadsBackIff(typeName: string, c: Constraints)
    requires CanonicalType(typeName)
    ensures ParseClause(TypeClause(typeName, c)) == Ok((typeName, c)) <==> Readable(c)
  {
    hide ParseInterior, Readable, Joined, Attributes, FirstParen, Trim, ParseClause;
    if RenderBlock(c) == "" {
      NoEntriesAreReadable(c);
      ClauseReadsBack(typeName, c);
    } else {
      ClauseIs(typeName, c);
      BlockReadsBackIff(c);
    }
  }

  lemma NoEntriesAreReadable(c: Constraints)
    requires RenderBlock(c) == ""
    ensures Readable(c)
  {
    hide Joined;
    assert Attributes(c) != [] ==> |RenderBlock(c)| >= 2;
  }

  lemma ClauseIs(typeName: string, c: Constraints)
    requires CanonicalType(typeName) && RenderBlock(c) != ""
    ensures var r := ParseInterior(RenderBlock(c)[1..|RenderBlock(c)| - 1]);
            ParseClause(TypeClause(typeName, c)) == if r.Err? then Err(r.error) else Ok((typeName, r.value))
  {
    hide FirstParen, ParseInterior, Joined, Trim, Attributes;
    assert ToUpper(typeName) == typeName by { CanonicalIsUpper(typeName); }
    var block := RenderBlock(c);
    var clause := typeName + " " + block;
    NoParen(typeName + " ", block[1..]);
    assert clause == typeName + " " + "(" + block[1..];
    assert clause[..|typeName| + 1] == [] + typeName + " " && clause[|typeName| + 1..] == block;
    TrimAround([], typeName, " ");
  }
}
