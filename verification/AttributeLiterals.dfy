/** The attribute block's scanners, said of literals and single characters instead of scanner
    states, and what its keywords and values are. */
module AttributeLiterals {
  import opened Text
  import opened SqlText
  import opened SchemaModel
  import opened AttributeBlock
  import opened SqlLiterals

  // ----- tokens -----

  function TextOf(ts: seq<Token>): string {
    if ts == [] then [] else (match ts[0] case Char(c) => [c] case Whole(s) => s) + TextOf(ts[1..])
  }

  /** Characters that are no quotes, whole literals, and at the end perhaps one that is not ended. */
  predicate AreTokens(ts: seq<Token>) {
    forall i | 0 <= i < |ts| ::
      match ts[i]
      case Char(c) => !IsQuote(c)
      case Whole(s) => IsLiteral(s) || (i == |ts| - 1 && IsOpen(s))
  }

  lemma TokensCons(t: Token, ts: seq<Token>)
    requires AreTokens(ts)
    requires match t case Char(c) => !IsQuote(c) case Whole(s) => IsLiteral(s) || (ts == [] && IsOpen(s))
    ensures AreTokens([t] + ts)
    ensures TextOf([t] + ts) == (match t case Char(c) => [c] case Whole(s) => s) + TextOf(ts)
  {
    hide IsLiteral, IsOpen;
    var all := [t] + ts;
    assert all[1..] == ts;
    forall i | 0 < i < |all| ensures all[i] == ts[i - 1] {}
  }

  lemma {:induction false} TokensTail(ts: seq<Token>)
    requires AreTokens(ts) && ts != []
    ensures AreTokens(ts[1..])
    ensures match ts[0] case Char(c) => !IsQuote(c) case Whole(s) => IsLiteral(s) || (ts[1..] == [] && IsOpen(s))
  {
    hide IsLiteral, IsOpen;
    forall i | 0 <= i < |ts[1..]| ensures ts[1..][i] == ts[i + 1] {}
  }

  /** Every text is a series of tokens. */
  lemma {:induction false} Tokenize(text: string) returns (ts: seq<Token>)
    ensures AreTokens(ts) && TextOf(ts) == text
    decreases |text|
  {
    hide IsLiteral, IsOpen, AreTokens;
    if text == [] {
      ts := [];
      NoTokens();
    } else if IsQuote(text[0]) {
      var n := LiteralLength(text);
      if n == |text| {
        assert text[..n] == text;
        NoTokens();
        TokensCons(Whole(text), []);
        ts := [Whole(text)];
        assert [Whole(text)] + [] == ts && text + [] == text;
      } else {
        var rest := Tokenize(text[n..]);
        SplitAt(text, n);
        TokensCons(Whole(text[..n]), rest);
        ts := [Whole(text[..n])] + rest;
      }
    } else {
      var rest := Tokenize(text[1..]);
      TokensCons(Char(text[0]), rest);
      ts := [Char(text[0])] + rest;
      assert [text[0]] + text[1..] == text;
    }
  }

  lemma NoTokens()
    ensures AreTokens([]) && TextOf([]) == []
  {
  }

  /** How far the literal a text begins with reaches. */
  lemma LiteralLength(text: string) returns (n: nat)
    requires text != [] && IsQuote(text[0])
    ensures 0 < n <= |text|
    ensures n < |text| ==> IsLiteral(text[..n])
    ensures n == |text| ==> IsLiteral(text) || IsOpen(text)
  {
    hide Backslashes, Escaped;
    var body := text[1..];
    var k := FindEnd(body, text[0]);
    if k == |body| {
      assert body[..k] == body;
      n := |text|;
    } else {
      n := k + 2;
      var l := text[..n];
      assert l[1..|l| - 1] == body[..k];
      if n == |text| { assert l == text; }
    }
  }

  lemma WholeInside(s: string)
    requires IsLiteral(s) || IsOpen(s)
    ensures AllInside(s, Outside) && (IsLiteral(s) ==> Scan(s, Outside) == Outside)
  {
    if IsLiteral(s) { LiteralInside(s); } else { OpenInside(s); }
  }

  // ----- commas -----

  /** The pieces between the commas that no bracket of any kind encloses. */
  function CommaPieces(ts: seq<Token>, depth: int, cur: string): seq<string> {
    if ts == [] then [cur]
    else
      match ts[0]
      case Whole(s) => CommaPieces(ts[1..], depth, cur + s)
      case Char(c) =>
        if c == ',' && depth == 0 then [cur] + CommaPieces(ts[1..], 0, [])
        else CommaPieces(ts[1..], if c in "([{" then depth + 1 else if c in ")]}" then depth - 1 else depth, cur + [c])
  }

  lemma {:induction false} PiecesKeepInside(s: string, rest: string, q: Quote, depth: int, cur: string)
    requires AllInside(s, q)
    ensures Pieces(s + rest, Pos(q, depth), cur) == Pieces(rest, Pos(Scan(s, q), depth), cur + s)
  {
    if s == [] {
      assert s + rest == rest && cur + s == cur;
    } else {
      TailConcat(s, rest);
      PiecesKeepInside(s[1..], rest, Step(q, s[0]), depth, cur + [s[0]]);
      Regroup(cur, [s[0]], s[1..]);
      assert [s[0]] + s[1..] == s;
    }
  }

  lemma {:induction false} PiecesOfTokens(ts: seq<Token>, depth: int, cur: string)
    requires AreTokens(ts)
    ensures Pieces(TextOf(ts), Pos(Outside, depth), cur) == CommaPieces(ts, depth, cur)
    decreases |ts|
  {
    hide IsLiteral, IsOpen, AreTokens, Pieces;
    if ts == [] {
      PiecesEnd(Pos(Outside, depth), cur);
    } else {
      var rest := ts[1..];
      TokensTail(ts);
      match ts[0]
      case Char(c) =>
        PiecesStep(c, TextOf(rest), depth, cur);
        if c == ',' && depth == 0 {
          PiecesOfTokens(rest, 0, []);
        } else {
          PiecesOfTokens(rest, if c in "([{" then depth + 1 else if c in ")]}" then depth - 1 else depth, cur + [c]);
        }
      case Whole(s) =>
        WholeInside(s);
        PiecesKeepInside(s, TextOf(rest), Outside, depth, cur);
        if rest == [] {
          PiecesEnd(Pos(Scan(s, Outside), depth), cur + s);
        } else {
          PiecesOfTokens(rest, depth, cur + s);
        }
    }
  }

  lemma PiecesEnd(p: Pos, cur: string)
    ensures Pieces([], p, cur) == [cur]
  {
  }

  lemma PiecesStep(c: char, rest: string, depth: int, cur: string)
    requires !IsQuote(c)
    ensures Pieces([c] + rest, Pos(Outside, depth), cur) ==
            if c == ',' && depth == 0 then [cur] + Pieces(rest, TOP, [])
            else Pieces(rest, Pos(Outside, if c in "([{" then depth + 1 else if c in ")]}" then depth - 1 else depth), cur + [c])
  {
    assert ([c] + rest)[1..] == rest;
  }

  // ----- the first parenthesis -----

  /** Where the first opening parenthesis stands that is no part of a literal. */
  function ParenAmong(ts: seq<Token>, from: nat): Option<nat> {
    if ts == [] then None
    else
      match ts[0]
      case Whole(s) => ParenAmong(ts[1..], from + |s|)
      case Char(c) => if c == '(' then Some(from) else ParenAmong(ts[1..], from + 1)
  }

  function Shift(r: Option<nat>, n: nat): Option<nat> {
    if r.None? then None else Some(r.value + n)
  }

  lemma {:induction false} ParenKeepsInside(s: string, rest: string, q: Quote)
    requires AllInside(s, q)
    ensures FirstParen(s + rest, q) == Shift(FirstParen(rest, Scan(s, q)), |s|)
  {
    if s == [] {
      assert s + rest == rest;
    } else {
      TailConcat(s, rest);
      ParenKeepsInside(s[1..], rest, Step(q, s[0]));
    }
  }

  lemma {:induction false} ParenOfTokens(ts: seq<Token>, from: nat)
    requires AreTokens(ts)
    ensures Shift(FirstParen(TextOf(ts), Outside), from) == ParenAmong(ts, from)
    decreases |ts|
  {
    hide IsLiteral, IsOpen, AreTokens, FirstParen;
    NoParenAtAll();
    if ts != [] {
      var rest := ts[1..];
      TokensTail(ts);
      match ts[0]
      case Char(c) =>
        ParenStep(c, TextOf(rest));
        ParenOfTokens(rest, from + 1);
      case Whole(s) =>
        WholeInside(s);
        ParenKeepsInside(s, TextOf(rest), Outside);
        if rest != [] { ParenOfTokens(rest, from + |s|); }
    }
  }

  lemma NoParenAtAll()
    ensures forall q :: FirstParen([], q) == None
  {
  }

  lemma ParenStep(c: char, rest: string)
    requires !IsQuote(c)
    ensures FirstParen([c] + rest, Outside) == if c == '(' then Some(0) else Shift(FirstParen(rest, Outside), 1)
  {
    assert ([c] + rest)[1..] == rest;
  }

  /** What the block's scanners do to any text: it is literals and single characters; commas cut
      where no bracket encloses them, and the block opens at the first parenthesis, neither ever
      within a literal. */
  lemma BlockScannersMean(text: string) returns (ts: seq<Token>)
    ensures AreTokens(ts) && TextOf(ts) == text
    ensures Pieces(text, TOP, []) == CommaPieces(ts, 0, [])
    ensures FirstParen(text, Outside) == ParenAmong(ts, 0)
  {
    hide AreTokens, Pieces, FirstParen;
    ts := Tokenize(text);
    PiecesOfTokens(ts, 0, []);
    ParenOfTokens(ts, 0);
  }

  // ----- keywords and values -----

  /** The same word, but for the case of its letters. */
  predicate SameWord(s: string, word: string) {
    |s| == |word| && forall i | 0 <= i < |s| ::
      s[i] == word[i] || ('A' <= word[i] <= 'Z' && s[i] as int == word[i] as int + 32)
  }

  lemma SameWordIff(s: string, word: string)
    requires forall i | 0 <= i < |word| :: !('a' <= word[i] <= 'z')
    ensures ToUpper(s) == word <==> SameWord(s, word)
  {
    hide ToUpper;
    if SameWord(s, word) {
      forall i | 0 <= i < |s| ensures ToUpper(s)[i] == word[i] { assert ToUpper(s)[i] == Upper(s[i]); }
    }
    if ToUpper(s) == word {
      forall i | 0 <= i < |s| ensures s[i] == word[i] || ('A' <= word[i] <= 'Z' && s[i] as int == word[i] as int + 32) {
        assert ToUpper(s)[i] == Upper(s[i]);
      }
    }
  }

  /** A boolean is the word true or false, in any case, and nothing else. */
  lemma BoolReadsIff(name: string, v: string, b: bool)
    ensures ParseBool(name, v) == Ok(b) <==> SameWord(v, if b then "TRUE" else "FALSE")
  {
    hide ToUpper;
    SameWordIff(v, "TRUE");
    SameWordIff(v, "FALSE");
  }

  /** Which attribute a name stands for, in any case; any other name is refused. */
  lemma NamesReadIff(name: string)
    ensures forall f: Flag ::
              KeyOf(name) == FlagKey(f) <==>
              SameWord(name, match f case Mandatory => "MANDATORY" case NotNull => "NOTNULL"
                                     case ReadOnly => "READONLY" case External => "EXTERNAL")
    ensures forall b: Bound ::
              KeyOf(name) == BoundKey(b) <==>
              SameWord(name, match b case Min => "MIN" case Max => "MAX" case Regexp => "REGEXP")
    ensures KeyOf(name) == DefaultKey <==> SameWord(name, "DEFAULT")
  {
    hide ToUpper, SameWord;
    WordsAreUpper();
    SameWordIff(name, "MANDATORY");
    SameWordIff(name, "NOTNULL");
    SameWordIff(name, "READONLY");
    SameWordIff(name, "EXTERNAL");
    SameWordIff(name, "MIN");
    SameWordIff(name, "MAX");
    SameWordIff(name, "REGEXP");
    SameWordIff(name, "DEFAULT");
  }

  predicate NoLower(s: string) {
    forall i | 0 <= i < |s| :: !('a' <= s[i] <= 'z')
  }

  lemma WordsAreUpper()
    ensures NoLower("MANDATORY") && NoLower("NOTNULL") && NoLower("READONLY") && NoLower("EXTERNAL")
    ensures NoLower("MIN") && NoLower("MAX") && NoLower("REGEXP") && NoLower("DEFAULT")
  {
  }

  /** A bound's value loses one pair of quotes of either kind if it has one, and must not be
      missing. */
  lemma ValueReads(name: string, v: string, quote: char)
    requires IsQuote(quote)
    ensures ParseStringValue(name, [quote] + v + [quote]) == Ok(v)
    ensures v != [] && (!IsQuote(v[0]) || v[|v| - 1] != v[0] || |v| == 1) ==> ParseStringValue(name, v) == Ok(v)
    ensures ParseStringValue(name, []).Err?
  {
    var s := [quote] + v + [quote];
    assert s[1..|s| - 1] == v;
  }
}
