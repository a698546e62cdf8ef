/** Stripping and splitting, said of literals, comments and code instead of scanner states: every
    text is a series of such pieces, comments go, and only a `;` of the code cuts. */
module SqlLiterals {
  import opened Text
  import opened SqlText

  // ----- pieces of SQL text -----

  /** The length of the run of backslashes a text ends in. */
  function Backslashes(s: string): nat {
    if s == [] || s[|s| - 1] != '\\' then 0 else 1 + Backslashes(s[..|s| - 1])
  }

  predicate IsQuote(c: char) {
    c == '\'' || c == '"'
  }

  /** Every `quote` of the text is escaped: it follows an odd run of backslashes. */
  predicate Escaped(s: string, quote: char) {
    forall i | 0 <= i < |s| && s[i] == quote :: Backslashes(s[..i]) % 2 == 1
  }

  /** A delimiter, a body that does not end the literal, and the delimiter again, unescaped. */
  predicate IsLiteral(s: string) {
    && |s| >= 2 && IsQuote(s[0]) && s[|s| - 1] == s[0]
    && Escaped(s[1..|s| - 1], s[0]) && Backslashes(s[1..|s| - 1]) % 2 == 0
  }

  /** A literal that nothing ends. */
  predicate IsOpen(s: string) {
    s != [] && IsQuote(s[0]) && Escaped(s[1..], s[0])
  }

  predicate IsComment(s: string) {
    "--" <= s && '\n' !in s
  }

  /** Text without quotes and without the start of a comment. */
  predicate IsCode(s: string) {
    && s != [] && (forall i | 0 <= i < |s| :: !IsQuote(s[i]))
    && forall i | 0 <= i < |s| - 1 :: !(s[i] == '-' && s[i + 1] == '-')
  }

  datatype Piece = Code(text: string) | Literal(text: string) | Comment(text: string) | Open(text: string)

  predicate IsPiece(p: Piece) {
    match p
    case Code(s) => IsCode(s)
    case Literal(s) => IsLiteral(s)
    case Comment(s) => IsComment(s)
    case Open(s) => IsOpen(s)
  }

  /** Whether `q` can follow `p`: code is not cut in two, a comment takes every `-` before its own
      and lasts to the end of its line, and nothing follows a literal that does not end. */
  predicate Follows(p: Piece, q: Piece) {
    match p
    case Code(s) => !q.Code? && (q.Comment? ==> s == [] || s[|s| - 1] != '-')
    case Literal(_) => true
    case Comment(_) => q.Code? && q.text != [] && q.text[0] == '\n'
    case Open(_) => false
  }

  predicate WellFormed(ps: seq<Piece>) {
    (forall i | 0 <= i < |ps| :: IsPiece(ps[i])) && forall i | 0 <= i < |ps| - 1 :: Follows(ps[i], ps[i + 1])
  }

  function Flat(ps: seq<Piece>): string {
    if ps == [] then [] else ps[0].text + Flat(ps[1..])
  }

  function WithoutComments(ps: seq<Piece>): seq<Piece> {
    if ps == [] then [] else (if ps[0].Comment? then [] else [ps[0]]) + WithoutComments(ps[1..])
  }

  // ----- inside a literal -----

  function Started(quote: char): Quote {
    if quote == '\'' then Single(false) else Double(false)
  }

  function Pending(quote: char, escaped: bool): Quote {
    if quote == '\'' then Single(escaped) else Double(escaped)
  }

  lemma {:induction false} BodyScan(body: string, quote: char)
    requires IsQuote(quote) && Escaped(body, quote)
    ensures Scan(body, Started(quote)) == Pending(quote, Backslashes(body) % 2 == 1)
  {
    hide Scan, Step, Backslashes, Escaped, Started, Pending;
    if body == [] {
      EmptyBody(quote);
    } else {
      var n := |body| - 1;
      var init, c := body[..n], body[n];
      assert body == init + [c];
      EscapedInit(body, quote);
      BodyScan(init, quote);
      ScanConcat(init, [c], Started(quote), 0);
      BodyStep(init, c, quote);
    }
  }

  lemma EmptyBody(quote: char)
    ensures Scan([], Started(quote)) == Pending(quote, Backslashes([]) % 2 == 1)
  {
  }

  lemma EscapedInit(body: string, quote: char)
    requires body != [] && Escaped(body, quote)
    ensures var n := |body| - 1;
            Escaped(body[..n], quote) && (body[n] == quote ==> Backslashes(body[..n]) % 2 == 1)
  {
    hide Backslashes;
    var init := body[..|body| - 1];
    forall i | 0 <= i < |init| && init[i] == quote ensures Backslashes(init[..i]) % 2 == 1 {
      assert body[..i] == init[..i];
    }
  }

  /** One more character of a body: a backslash counts, anything else ends the run. */
  lemma BodyStep(init: string, c: char, quote: char)
    requires IsQuote(quote) && (c == quote ==> Backslashes(init) % 2 == 1)
    ensures Scan([c], Pending(quote, Backslashes(init) % 2 == 1)) == Pending(quote, Backslashes(init + [c]) % 2 == 1)
  {
    assert [c][1..] == [];
    assert (init + [c])[..|init|] == init;
  }

  /** Every character of `s`, scanned from `q`, is part of a literal. */
  predicate AllInside(s: string, q: Quote) {
    s == [] || (Inside(q, s[0]) && AllInside(s[1..], Step(q, s[0])))
  }

  lemma {:induction false} AllInsideSnoc(s: string, c: char, q: Quote)
    requires AllInside(s, q) && Inside(Scan(s, q), c)
    ensures AllInside(s + [c], q)
  {
    if s == [] {
      assert [c][1..] == [] && [] + [c] == [c];
    } else {
      TailConcat(s, [c]);
      AllInsideSnoc(s[1..], c, Step(q, s[0]));
    }
  }

  lemma {:induction false} BodyInside(body: string, quote: char)
    requires IsQuote(quote) && Escaped(body, quote)
    ensures AllInside(body, Started(quote))
  {
    if body != [] {
      var n := |body| - 1;
      var init, c := body[..n], body[n];
      assert body == init + [c];
      EscapedInit(body, quote);
      hide Backslashes, Escaped, Scan, Step;
      BodyInside(init, quote);
      BodyScan(init, quote);
      AllInsideSnoc(init, c, Started(quote));
    }
  }

  /** A delimiter and a body that does not end the literal. */
  lemma OpenInside(s: string)
    requires IsOpen(s)
    ensures AllInside(s, Outside) && Scan(s, Outside) == Pending(s[0], Backslashes(s[1..]) % 2 == 1)
  {
    hide Backslashes, Escaped;
    BodyInside(s[1..], s[0]);
    BodyScan(s[1..], s[0]);
  }

  lemma LiteralInside(s: string)
    requires IsLiteral(s)
    ensures AllInside(s, Outside) && Scan(s, Outside) == Outside
  {
    hide Backslashes, Escaped, AllInside;
    var body := s[1..|s| - 1];
    var open := [s[0]] + body;
    assert open[1..] == body && s == open + [s[0]];
    OpenInside(open);
    AllInsideSnoc(open, s[0], Outside);
    ScanConcat(open, [s[0]], Outside, 0);
    assert [s[0]][1..] == [];
  }

  lemma {:induction false} StripKeepsInside(s: string, rest: string, q: Quote)
    requires AllInside(s, q)
    ensures Strip(s + rest, q) == s + Strip(rest, Scan(s, q))
  {
    hide LineEnd, StartsComment;
    if s == [] {
      assert s + rest == rest && [] + Strip(rest, q) == Strip(rest, q);
    } else {
      TailConcat(s, rest);
      StripKeepsInside(s[1..], rest, Step(q, s[0]));
      Regroup([s[0]], s[1..], Strip(rest, Scan(s, q)));
      assert [s[0]] + s[1..] == s;
    }
  }

  lemma {:induction false} ChunksKeepInside(s: string, rest: string, q: Quote, depth: int, cur: string)
    requires AllInside(s, q)
    ensures Chunks(s + rest, q, depth, cur) == Chunks(rest, Scan(s, q), depth, cur + s)
  {
    hide Emit;
    if s == [] {
      assert s + rest == rest && cur + s == cur;
    } else {
      TailConcat(s, rest);
      ChunksKeepInside(s[1..], rest, Step(q, s[0]), depth, cur + [s[0]]);
      Regroup(cur, [s[0]], s[1..]);
      assert [s[0]] + s[1..] == s;
    }
  }

  // ----- stripping -----

  /** Code is kept, unless its end and what follows it start a comment. */
  lemma {:induction false} StripKeepsCode(s: string, rest: string)
    requires IsCode(s) && (rest == [] || rest[0] != '-' || s[|s| - 1] != '-')
    ensures Strip(s + rest, Outside) == s + Strip(rest, Outside)
  {
    hide LineEnd;
    TailConcat(s, rest);
    var t := s + rest;
    assert !IsQuote(s[0]);
    if |s| == 1 {
      assert s[1..] == [] && [] + rest == rest;
      assert |rest| > 0 ==> t[1] == rest[0];
    } else {
      assert s[0] == '-' ==> s[1] != '-';
      assert t[1] == s[1];
      forall i | 0 <= i < |s[1..]| ensures !IsQuote(s[1..][i]) { assert s[1..][i] == s[i + 1]; }
      forall i | 0 <= i < |s[1..]| - 1 ensures !(s[1..][i] == '-' && s[1..][i + 1] == '-') {
        assert s[1..][i] == s[i + 1] && s[1..][i + 1] == s[i + 2];
      }
      StripKeepsCode(s[1..], rest);
      Regroup([s[0]], s[1..], Strip(rest, Outside));
      assert [s[0]] + s[1..] == s;
    }
  }

  lemma {:induction false} LineEndIs(s: string, rest: string)
    requires '\n' !in s && (rest == [] || rest[0] == '\n')
    ensures LineEnd(s + rest) == |s|
  {
    if s == [] {
      assert s + rest == rest;
    } else {
      TailConcat(s, rest);
      LineEndIs(s[1..], rest);
    }
  }

  lemma StripDropsComment(s: string, rest: string)
    requires IsComment(s) && (rest == [] || rest[0] == '\n')
    ensures Strip(s + rest, Outside) == Strip(rest, Outside)
  {
    hide LineEnd;
    LineEndIs(s, rest);
    var t := s + rest;
    assert t[0] == '-' && t[1] == '-';
    if rest != [] { assert t[|s| + 1..] == rest[1..]; }
  }

  lemma NextText(ps: seq<Piece>)
    requires WellFormed(ps) && ps != []
    ensures WellFormed(ps[1..]) && IsPiece(ps[0])
    ensures Flat(ps[1..]) != [] ==> |ps| > 1 && ps[1].text != [] && Flat(ps[1..])[0] == ps[1].text[0]
    ensures |ps| > 1 ==> Flat(ps[1..]) != [] && IsPiece(ps[1]) && Follows(ps[0], ps[1])
  {
    hide IsLiteral, IsOpen, IsComment, IsCode, Follows;
    forall i | 0 <= i < |ps[1..]| ensures IsPiece(ps[1..][i]) { assert ps[1..][i] == ps[i + 1]; }
    forall i | 0 <= i < |ps[1..]| - 1 ensures Follows(ps[1..][i], ps[1..][i + 1]) {
      assert ps[1..][i] == ps[i + 1] && ps[1..][i + 1] == ps[i + 2];
    }
    if |ps| > 1 {
      PieceText(ps[1]);
      assert ps[1..][0] == ps[1];
    }
  }

  lemma PieceText(p: Piece)
    requires IsPiece(p)
    ensures p.text != []
    ensures p.Comment? ==> p.text[0] == '-'
    ensures p.Literal? || p.Open? ==> IsQuote(p.text[0])
  {
  }

  /** Stripping drops the comments of a text and nothing else. */
  lemma {:induction false} StripDropsComments(ps: seq<Piece>)
    requires WellFormed(ps)
    ensures Strip(Flat(ps), Outside) == Flat(WithoutComments(ps))
  {
    hide Strip, WellFormed, IsLiteral, IsOpen, IsComment, IsCode;
    if ps == [] {
      StripNothing();
    } else {
      var p, rest := ps[0], Flat(ps[1..]);
      NextText(ps);
      if |ps| > 1 { PieceText(ps[1]); }
      StripDropsComments(ps[1..]);
      PieceText(p);
      if p.Comment? {
        StripDropsComment(p.text, rest);
        assert WithoutComments(ps) == WithoutComments(ps[1..]);
      } else {
        assert WithoutComments(ps)[1..] == WithoutComments(ps[1..]);
        match p {
          case Code(s) => StripKeepsCode(s, rest);
          case Literal(s) =>
            LiteralInside(s);
            StripKeepsInside(s, rest, Outside);
          case Open(s) =>
            OpenInside(s);
            StripKeepsInside(s, rest, Outside);
            StripNothing();
        }
      }
    }
  }

  lemma StripNothing()
    ensures forall q :: Strip([], q) == []
  {
  }

  // ----- splitting -----

  /** What is left of comment-free text once literals are taken for what they are: single
      characters of code, and whole literals. */
  datatype Token = Char(c: char) | Whole(text: string)

  function Chars(s: string): seq<Token> {
    if s == [] then [] else [Char(s[0])] + Chars(s[1..])
  }

  function Tokens(ps: seq<Piece>): seq<Token> {
    if ps == [] then []
    else (if ps[0].Code? then Chars(ps[0].text) else [Whole(ps[0].text)]) + Tokens(ps[1..])
  }

  /** The non-blank statements between the `;` that no brace encloses; a literal is never cut. */
  function Statements(ts: seq<Token>, depth: int, cur: string): seq<string> {
    if ts == [] then (if Blank(cur) then [] else [cur])
    else
      match ts[0]
      case Whole(s) => Statements(ts[1..], depth, cur + s)
      case Char(c) =>
        if c == ';' && depth == 0 then (if Blank(cur) then [] else [cur]) + Statements(ts[1..], 0, [])
        else Statements(ts[1..], if c == '{' then depth + 1 else if c == '}' then depth - 1 else depth, cur + [c])
  }

  lemma {:induction false} ChunksOfCode(s: string, rest: string, ts: seq<Token>, depth: int, cur: string)
    requires forall i | 0 <= i < |s| :: !IsQuote(s[i])
    requires forall d: int, c: string :: Chunks(rest, Outside, d, c) == Statements(ts, d, c)
    ensures Chunks(s + rest, Outside, depth, cur) == Statements(Chars(s) + ts, depth, cur)
  {
    hide Blank;
    if s == [] {
      assert s + rest == rest && Chars(s) + ts == ts;
    } else {
      TailConcat(s, rest);
      TailConcat(Chars(s), ts);
      assert Chars(s)[1..] == Chars(s[1..]);
      forall i | 0 <= i < |s[1..]| ensures !IsQuote(s[1..][i]) { assert s[1..][i] == s[i + 1]; }
      var c := s[0];
      if c == ';' && depth == 0 {
        ChunksOfCode(s[1..], rest, ts, 0, []);
      } else {
        ChunksOfCode(s[1..], rest, ts, if c == '{' then depth + 1 else if c == '}' then depth - 1 else depth, cur + [c]);
      }
    }
  }

  predicate NoComments(ps: seq<Piece>) {
    forall i | 0 <= i < |ps| :: !ps[i].Comment? && IsPiece(ps[i]) && (ps[i].Open? ==> i == |ps| - 1)
  }

  lemma {:induction false} ChunksOfPieces(ps: seq<Piece>, depth: int, cur: string)
    requires NoComments(ps)
    ensures Chunks(Flat(ps), Outside, depth, cur) == Statements(Tokens(ps), depth, cur)
    decreases |ps|
  {
    hide Chunks, IsLiteral, IsOpen, IsComment, Blank;
    if ps == [] {
      ChunksEnd(Outside, depth, cur);
    } else {
      var p, rest, ts := ps[0], ps[1..], Tokens(ps[1..]);
      forall i | 0 <= i < |rest| ensures !rest[i].Comment? && IsPiece(rest[i]) && (rest[i].Open? ==> i == |rest| - 1) {
        assert rest[i] == ps[i + 1];
      }
      match p
      case Code(s) =>
        forall d: int, c: string ensures Chunks(Flat(rest), Outside, d, c) == Statements(ts, d, c) {
          ChunksOfPieces(rest, d, c);
        }
        ChunksOfCode(s, Flat(rest), ts, depth, cur);
      case Literal(s) =>
        LiteralInside(s);
        ChunksKeepInside(s, Flat(rest), Outside, depth, cur);
        ChunksOfPieces(rest, depth, cur + s);
        assert ([Whole(s)] + ts)[1..] == ts;
      case Open(s) =>
        OpenInside(s);
        assert rest == [];
        ChunksKeepInside(s, [], Outside, depth, cur);
        ChunksEnd(Scan(s, Outside), depth, cur + s);
        assert ([Whole(s)] + ts)[1..] == ts == [];
    }
  }

  lemma ChunksEnd(q: Quote, depth: int, cur: string)
    ensures Chunks([], q, depth, cur) == if Blank(cur) then [] else [cur]
  {
  }

  lemma {:induction false} CommentFree(ps: seq<Piece>)
    requires WellFormed(ps)
    ensures NoComments(WithoutComments(ps))
  {
    hide IsLiteral, IsOpen, IsComment, IsCode, WellFormed;
    if ps != [] {
      NextText(ps);
      CommentFree(ps[1..]);
      if ps[0].Open? { assert |ps| == 1; }
      var rest := WithoutComments(ps[1..]);
      if !ps[0].Comment? {
        var all := [ps[0]] + rest;
        forall i | 0 <= i < |all| ensures !all[i].Comment? && IsPiece(all[i]) && (all[i].Open? ==> i == |all| - 1) {
          if i > 0 { assert all[i] == rest[i - 1]; }
        }
        assert WithoutComments(ps) == all;
      } else {
        assert WithoutComments(ps) == rest;
      }
    }
  }

  // ----- every text -----

  /** The first quote that ends a literal, if there is one. */
  lemma FindEnd(s: string, quote: char) returns (n: nat)
    requires IsQuote(quote)
    ensures n <= |s| && Escaped(s[..n], quote)
    ensures n < |s| ==> s[n] == quote && Backslashes(s[..n]) % 2 == 0
  {
    hide Backslashes;
    n := 0;
    while n < |s| && !(s[n] == quote && Backslashes(s[..n]) % 2 == 0)
      invariant n <= |s| && Escaped(s[..n], quote)
    {
      var t := s[..n + 1];
      forall i | 0 <= i < |t| && t[i] == quote ensures Backslashes(t[..i]) % 2 == 1 {
        assert t[..i] == s[..i];
        if i < n { assert s[..n][i] == quote && s[..n][..i] == s[..i]; }
      }
      n := n + 1;
    }
  }

  lemma WellFormedCons(p: Piece, ps: seq<Piece>)
    requires IsPiece(p) && WellFormed(ps) && (ps != [] ==> Follows(p, ps[0]))
    ensures WellFormed([p] + ps) && Flat([p] + ps) == p.text + Flat(ps)
  {
    hide IsPiece, Follows;
    var all := [p] + ps;
    assert all[1..] == ps;
    forall i | 0 <= i < |all| ensures IsPiece(all[i]) { if i > 0 { assert all[i] == ps[i - 1]; } }
    forall i | 0 <= i < |all| - 1 ensures Follows(all[i], all[i + 1]) {
      assert all[i + 1] == ps[i];
      if i > 0 { assert all[i] == ps[i - 1]; }
    }
  }

  /** Every text is a series of code, literals and comments. */
  lemma {:induction false} Decompose(text: string) returns (ps: seq<Piece>)
    ensures WellFormed(ps) && Flat(ps) == text
    ensures text != [] && !IsQuote(text[0]) && !StartsComment(text) ==> ps != [] && ps[0].Code?
    ensures text != [] && StartsComment(text) ==> ps != [] && ps[0].Comment?
    ensures text != [] && IsQuote(text[0]) ==> ps != [] && !ps[0].Code? && !ps[0].Comment?
    ensures ps != [] ==> text != [] && ps[0].text != [] && ps[0].text[0] == text[0]
    decreases |text|
  {
    hide WellFormed, IsLiteral, IsOpen, IsCode, Backslashes, Escaped, LineEnd;
    if text == [] {
      ps := [];
      NoPieces();
    } else if IsQuote(text[0]) {
      ps := DecomposeLiteral(text);
    } else if StartsComment(text) {
      var n := LineEnd(text);
      var rest := Decompose(text[n..]);
      SplitAt(text, n);
      assert text[..2] == "--";
      CommentPrefix(text, n);
      WellFormedCons(Comment(text[..n]), rest);
      ps := [Comment(text[..n])] + rest;
    } else {
      var rest := Decompose(text[1..]);
      SplitAt(text, 1);
      assert text[..1] == [text[0]];
      ps := PrependChar(text[0], text[1..], rest);
    }
  }

  lemma NoPieces()
    ensures WellFormed([]) && Flat([]) == []
  {
  }

  lemma CommentPrefix(text: string, n: nat)
    requires StartsComment(text) && n == LineEnd(text)
    ensures n >= 2 && IsComment(text[..n])
  {
    assert LineEnd(text) == 1 + LineEnd(text[1..]) == 2 + LineEnd(text[1..][1..]);
  }

  lemma DecomposeLiteral(text: string) returns (ps: seq<Piece>)
    requires text != [] && IsQuote(text[0])
    ensures WellFormed(ps) && Flat(ps) == text
    ensures ps != [] && !ps[0].Code? && !ps[0].Comment? && ps[0].text != [] && ps[0].text[0] == text[0]
    decreases |text|, 0
  {
    hide WellFormed, Backslashes, Escaped;
    var body := text[1..];
    var n := FindEnd(body, text[0]);
    if n == |body| {
      assert body[..n] == body;
      NoPieces();
      WellFormedCons(Open(text), []);
      ps := [Open(text)];
      assert [Open(text)] + [] == ps && text + [] == text;
    } else {
      var l := text[..n + 2];
      assert l[1..|l| - 1] == body[..n];
      var rest := Decompose(text[n + 2..]);
      SplitAt(text, n + 2);
      WellFormedCons(Literal(l), rest);
      ps := [Literal(l)] + rest;
    }
  }

  /** One more character of code in front. */
  lemma PrependChar(c: char, text: string, ps: seq<Piece>) returns (all: seq<Piece>)
    requires !IsQuote(c) && !StartsComment([c] + text)
    requires WellFormed(ps) && Flat(ps) == text && (ps != [] ==> text != [] && ps[0].text != [] && ps[0].text[0] == text[0])
    ensures WellFormed(all) && Flat(all) == [c] + text
    ensures all != [] && all[0].Code? && all[0].text != [] && all[0].text[0] == c
  {
    hide WellFormed, IsLiteral, IsOpen, IsComment;
    assert text != [] ==> ([c] + text)[1] == text[0];
    if ps != [] && ps[0].Code? {
      var s, rest := ps[0].text, ps[1..];
      NextText(ps);
      CodeCons(c, s);
      if rest != [] { assert rest[0] == ps[1]; }
      WellFormedCons(Code([c] + s), rest);
      all := [Code([c] + s)] + rest;
      Regroup([c], s, Flat(rest));
    } else {
      if ps != [] { NextText(ps); PieceText(ps[0]); }
      WellFormedCons(Code([c]), ps);
      all := [Code([c])] + ps;
    }
  }

  lemma CodeCons(c: char, s: string)
    requires !IsQuote(c) && IsCode(s) && !(c == '-' && s[0] == '-')
    ensures IsCode([c] + s)
  {
    var t := [c] + s;
    forall i | 0 <= i < |t| ensures !IsQuote(t[i]) { if i > 0 { assert t[i] == s[i - 1]; } }
    forall i | 0 <= i < |t| - 1 ensures !(t[i] == '-' && t[i + 1] == '-') {
      assert t[i + 1] == s[i];
      if i > 0 { assert t[i] == s[i - 1]; }
    }
  }

  /** What the two scanners do to any text: it is code, literals and comments, the last literal
      perhaps unended; stripping drops the comments and keeps everything else, and splitting cuts
      what is left at the `;` of the code that no brace of the code encloses, and nowhere else. */
  lemma ScannersMean(text: string) returns (ps: seq<Piece>)
    ensures WellFormed(ps) && Flat(ps) == text
    ensures Strip(text, Outside) == Flat(WithoutComments(ps))
    ensures SplitSql(text) == Statements(Tokens(WithoutComments(ps)), 0, [])
  {
    hide WellFormed, Chunks, Statements, Strip;
    ps := Decompose(text);
    PiecesMean(ps);
  }

  lemma PiecesMean(ps: seq<Piece>)
    requires WellFormed(ps)
    ensures Strip(Flat(ps), Outside) == Flat(WithoutComments(ps))
    ensures SplitSql(Flat(ps)) == Statements(Tokens(WithoutComments(ps)), 0, [])
  {
    hide WellFormed, Chunks, Statements, Strip, NoComments;
    StripDropsComments(ps);
    CommentFree(ps);
    ChunksOfPieces(WithoutComments(ps), 0, []);
  }
}
