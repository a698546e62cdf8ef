/** Turning SQL text into statements: comments go, and `;` splits, except inside quotes and,
    for `;`, inside braces. */
module SqlText {
  import opened Text

  /** The scanner's quote state: outside any literal, or inside one, possibly right after a
      backslash. */
  datatype Quote = Outside | Single(escaped: bool) | Double(escaped: bool)

  /** Whether the character is part of a literal, its delimiters included. */
  predicate Inside(q: Quote, c: char) {
    !q.Outside? || c == '\'' || c == '"'
  }

  function Step(q: Quote, c: char): Quote {
    match q
    case Outside => if c == '\'' then Single(false) else if c == '"' then Double(false) else Outside
    case Single(e) => if e then Single(false) else if c == '\\' then Single(true) else if c == '\'' then Outside else q
    case Double(e) => if e then Double(false) else if c == '\\' then Double(true) else if c == '"' then Outside else q
  }

  /** The state after a text. */
  function Scan(s: string, q: Quote): Quote {
    if s == [] then q else Scan(s[1..], Step(q, s[0]))
  }

  // ----- comments -----

  function LineEnd(s: string): (n: nat)
    ensures n <= |s| && '\n' !in s[..n]
    ensures n < |s| ==> s[n] == '\n'
  {
    if s == [] || s[0] == '\n' then 0
    else
      var n := 1 + LineEnd(s[1..]);
      assert s[..n] == [s[0]] + s[1..][..n - 1];
      n
  }

  predicate StartsComment(s: string) {
    |s| > 1 && s[0] == '-' && s[1] == '-'
  }

  function Strip(s: string, q: Quote): string
    decreases |s|
  {
    if s == [] then []
    else if Inside(q, s[0]) then [s[0]] + Strip(s[1..], Step(q, s[0]))
    else if StartsComment(s) then
      var n := LineEnd(s);
      if n == |s| then [] else ['\n'] + Strip(s[n + 1..], q)
    else [s[0]] + Strip(s[1..], q)
  }

  method SkipToLineEnd(text: string, from: nat) returns (i: nat)
    requires from <= |text|
    ensures i == from + LineEnd(text[from..])
  {
    i := from;
    while i < |text| && text[i] != '\n'
      invariant from <= i <= |text|
      invariant i + LineEnd(text[i..]) == from + LineEnd(text[from..])
    {
      assert text[i..][1..] == text[i + 1..];
      i := i + 1;
    }
  }

  /** Stripping from index `i` on, one step unfolded. */
  lemma StripFrom(text: string, i: nat, q: Quote)
    requires i < |text|
    ensures var c := text[i];
            var end := i + LineEnd(text[i..]);
            Strip(text[i..], q) ==
            if Inside(q, c) then [c] + Strip(text[i + 1..], Step(q, c))
            else if c == '-' && i + 1 < |text| && text[i + 1] == '-' then
              (if end == |text| then [] else ['\n'] + Strip(text[end + 1..], q))
            else [c] + Strip(text[i + 1..], q)
  {
    var rest := text[i..];
    assert rest[1..] == text[i + 1..];
    assert rest[LineEnd(rest)..] == text[i + LineEnd(rest)..];
    if LineEnd(rest) < |rest| { assert rest[LineEnd(rest) + 1..] == text[i + LineEnd(rest) + 1..]; }
  }

  method StripComments(text: string) returns (out: string)
    ensures out == Strip(text, Outside)
  {
    hide Strip, LineEnd, Inside, Step;
    out := [];
    var q := Outside;
    var i := 0;
    assert text[0..] == text;
    while i < |text|
      invariant 0 <= i <= |text|
      invariant out + Strip(text[i..], q) == Strip(text, Outside)
    {
      var c := text[i];
      ghost var so := out;
      StripFrom(text, i, q);
      if Inside(q, c) {
        out := out + [c];
        q := Step(q, c);
        i := i + 1;
        Regroup(so, [c], Strip(text[i..], q));
      } else if c == '-' && i + 1 < |text| && text[i + 1] == '-' {
        i := SkipToLineEnd(text, i);
        if i < |text| {
          out := out + ['\n'];
          i := i + 1;
          Regroup(so, ['\n'], Strip(text[i..], q));
        } else {
          StripEnd(text, q);
        }
      } else {
        out := out + [c];
        i := i + 1;
        Regroup(so, [c], Strip(text[i..], q));
      }
    }
    StripEnd(text, q);
  }

  lemma StripEnd(text: string, q: Quote)
    ensures Strip(text[|text|..], q) == []
  {
  }

  /** No comment starts in `s` when scanned from `q`. */
  predicate Clean(s: string, q: Quote) {
    s == [] || ((Inside(q, s[0]) || !StartsComment(s)) && Clean(s[1..], Step(q, s[0])))
  }

  lemma {:induction false} CleanIsKept(s: string, q: Quote)
    ensures Clean(s, q) ==> Strip(s, q) == s
  {
    if s != [] && Clean(s, q) {
      CleanIsKept(s[1..], Step(q, s[0]));
    }
  }

  lemma StripHead(s: string, q: Quote)
    requires s == [] || s[0] != '-'
    ensures s == [] ==> Strip(s, q) == []
    ensures s != [] ==> Strip(s, q) != [] && Strip(s, q)[0] == s[0]
  {
  }

  lemma {:induction false} StripIsClean(s: string, q: Quote)
    ensures Clean(Strip(s, q), q)
    decreases |s|
  {
    if s != [] {
      if Inside(q, s[0]) {
        StripIsClean(s[1..], Step(q, s[0]));
        assert Strip(s, q)[1..] == Strip(s[1..], Step(q, s[0]));
      } else if StartsComment(s) {
        var n := LineEnd(s);
        if n < |s| {
          StripIsClean(s[n + 1..], q);
          assert Strip(s, q)[1..] == Strip(s[n + 1..], q);
        }
      } else {
        StripIsClean(s[1..], q);
        assert Strip(s, q)[1..] == Strip(s[1..], q);
        if s[0] == '-' { StripHead(s[1..], q); }
      }
    }
  }

  /** Stripping is idempotent, in every quote state. */
  lemma {:induction false} StripIdempotent(s: string, q: Quote)
    ensures Strip(Strip(s, q), q) == Strip(s, q)
  {
    StripIsClean(s, q);
    CleanIsKept(Strip(s, q), q);
  }

  function Newlines(s: string): nat {
    if s == [] then 0 else (if s[0] == '\n' then 1 else 0) + Newlines(s[1..])
  }

  lemma {:induction false} NewlinesConcat(a: string, b: string)
    ensures Newlines(a + b) == Newlines(a) + Newlines(b)
  {
    if a == [] {
      assert a + b == b;
    } else {
      assert (a + b)[1..] == a[1..] + b;
      NewlinesConcat(a[1..], b);
    }
  }

  lemma {:induction false} NoNewlines(s: string)
    requires '\n' !in s
    ensures Newlines(s) == 0
  {
    if s != [] { NoNewlines(s[1..]); }
  }

  /** Stripping keeps every newline, so line numbers stay true. */
  lemma {:induction false} StripKeepsNewlines(s: string, q: Quote)
    ensures Newlines(Strip(s, q)) == Newlines(s)
    decreases |s|
  {
    if s != [] {
      if !Inside(q, s[0]) && StartsComment(s) {
        var n := LineEnd(s);
        NoNewlines(s[..n]);
        if n < |s| {
          assert s == s[..n] + (['\n'] + s[n + 1..]);
          NewlinesConcat(s[..n], ['\n'] + s[n + 1..]);
          StripKeepsNewlines(s[n + 1..], q);
          assert (['\n'] + s[n + 1..])[1..] == s[n + 1..];
        } else {
          assert s == s[..n];
        }
      } else {
        StripKeepsNewlines(s[1..], Step(q, s[0]));
        assert Strip(s, q)[1..] == Strip(s[1..], Step(q, s[0]));
      }
    }
  }

  // ----- statements -----

  function Nest(depth: int, q: Quote, c: char): int {
    if Inside(q, c) then depth else if c == '{' then depth + 1 else if c == '}' then depth - 1 else depth
  }

  predicate Cuts(q: Quote, depth: int, c: char) {
    !Inside(q, c) && c == ';' && depth == 0
  }

  function Emit(cur: string): seq<string> {
    if Blank(cur) then [] else [cur]
  }

  /** The chunks of comment-free text, given the quote state, the brace depth and the chunk
      collected so far. */
  function Chunks(s: string, q: Quote, depth: int, cur: string): seq<string> {
    if s == [] then Emit(cur)
    else if Cuts(q, depth, s[0]) then Emit(cur) + Chunks(s[1..], q, depth, [])
    else Chunks(s[1..], Step(q, s[0]), Nest(depth, q, s[0]), cur + [s[0]])
  }

  function SplitSql(text: string): seq<string> {
    Chunks(Strip(text, Outside), Outside, 0, [])
  }

  /** The chunks from index `i` on, one step unfolded. */
  lemma ChunksFrom(s: string, i: nat, q: Quote, depth: int, cur: string)
    requires i <= |s|
    ensures Chunks(s[i..], q, depth, cur) ==
            if i == |s| then Emit(cur)
            else if Cuts(q, depth, s[i]) then Emit(cur) + Chunks(s[i + 1..], q, depth, [])
            else Chunks(s[i + 1..], Step(q, s[i]), Nest(depth, q, s[i]), cur + [s[i]])
  {
    if i < |s| { assert s[i..][1..] == s[i + 1..]; }
  }

  method EmitChunk(cur: string) returns (chunks: seq<string>)
    ensures chunks == Emit(cur)
  {
    TrimBlank(cur);
    chunks := if Trim(cur) == [] then [] else [cur];
  }

  method SplitSqlStatements(text: string) returns (out: seq<string>)
    ensures out == SplitSql(text)
  {
    hide Chunks, Strip, Emit;
    out := [];
    var cur := [];
    var q := Outside;
    var depth := 0;
    var s := StripComments(text);
    var i := 0;
    assert s[0..] == s;
    while i < |s|
      invariant 0 <= i <= |s|
      invariant out + Chunks(s[i..], q, depth, cur) == Chunks(s, Outside, 0, [])
    {
      var c := s[i];
      ChunksFrom(s, i, q, depth, cur);
      i := i + 1;
      if Inside(q, c) {
        cur := cur + [c];
        q := Step(q, c);
      } else if c == '{' {
        depth := depth + 1;
        cur := cur + [c];
      } else if c == '}' {
        depth := depth - 1;
        cur := cur + [c];
      } else if c == ';' && depth == 0 {
        ghost var so := out;
        var done := EmitChunk(cur);
        out := out + done;
        cur := [];
        assert so + (done + Chunks(s[i..], q, depth, cur)) == out + Chunks(s[i..], q, depth, cur);
      } else {
        cur := cur + [c];
      }
    }
    ChunksFrom(s, i, q, depth, cur);
    var last := EmitChunk(cur);
    out := out + last;
  }

  // ----- laws of the splitter -----

  function ScanDepth(s: string, q: Quote, depth: int): int {
    if s == [] then depth else ScanDepth(s[1..], Step(q, s[0]), Nest(depth, q, s[0]))
  }

  /** No `;` of `s` splits when scanned from the given state. */
  predicate NoCut(s: string, q: Quote, depth: int) {
    s == [] || (!Cuts(q, depth, s[0]) && NoCut(s[1..], Step(q, s[0]), Nest(depth, q, s[0])))
  }

  lemma {:induction false} ScanConcat(a: string, b: string, q: Quote, depth: int)
    ensures Scan(a + b, q) == Scan(b, Scan(a, q))
    ensures ScanDepth(a + b, q, depth) == ScanDepth(b, Scan(a, q), ScanDepth(a, q, depth))
    ensures NoCut(a + b, q, depth) <==> NoCut(a, q, depth) && NoCut(b, Scan(a, q), ScanDepth(a, q, depth))
  {
    if a == [] {
      assert a + b == b;
    } else {
      assert (a + b)[1..] == a[1..] + b;
      ScanConcat(a[1..], b, Step(q, a[0]), Nest(depth, q, a[0]));
    }
  }

  /** Clean text is clean in both halves; clean halves join cleanly when a `-` does not meet a `-`. */
  lemma {:induction false} CleanConcat(a: string, b: string, q: Quote)
    ensures Clean(a + b, q) ==> Clean(a, q) && Clean(b, Scan(a, q))
    ensures Clean(a, q) && Clean(b, Scan(a, q)) && (a == [] || b == [] || b[0] != '-' || a[|a| - 1] != '-') ==> Clean(a + b, q)
  {
    if a == [] {
      assert a + b == b;
    } else {
      assert (a + b)[1..] == a[1..] + b;
      CleanConcat(a[1..], b, Step(q, a[0]));
      if |a| == 1 { assert a[1..] == []; }
    }
  }

  lemma {:induction false} UncutChunk(s: string, q: Quote, depth: int, cur: string)
    requires NoCut(s, q, depth)
    ensures Chunks(s, q, depth, cur) == Emit(cur + s)
  {
    if s == [] {
      assert cur + s == cur;
    } else {
      UncutChunk(s[1..], Step(q, s[0]), Nest(depth, q, s[0]), cur + [s[0]]);
      assert cur + [s[0]] + s[1..] == cur + s;
    }
  }

  /** A chunk that stands on its own: not blank, free of comments, with no cut inside. */
  predicate Statement(s: string) {
    !Blank(s) && Clean(s, Outside) && NoCut(s, Outside, 0)
  }

  lemma StatementSplitsToItself(s: string)
    requires Statement(s)
    ensures SplitSql(s) == [s]
  {
    CleanIsKept(s, Outside);
    UncutChunk(s, Outside, 0, []);
    assert [] + s == s;
  }

  lemma {:induction false} ChunksAreStatements(s: string, q: Quote, depth: int, cur: string)
    requires Clean(cur + s, Outside) && NoCut(cur, Outside, 0)
    requires Scan(cur, Outside) == q && ScanDepth(cur, Outside, 0) == depth
    ensures forall c | c in Chunks(s, q, depth, cur) :: Statement(c)
    decreases |s|
  {
    CleanConcat(cur, s, Outside);
    if s != [] {
      if Cuts(q, depth, s[0]) {
        assert [] + s[1..] == s[1..];
        ChunksAreStatements(s[1..], q, depth, []);
      } else {
        assert cur + s == (cur + [s[0]]) + s[1..];
        ScanConcat(cur, [s[0]], Outside, 0);
        assert [s[0]][1..] == [];
        ChunksAreStatements(s[1..], Step(q, s[0]), Nest(depth, q, s[0]), cur + [s[0]]);
      }
    }
  }

  /** Every chunk the splitter returns, for any text, splits to itself alone. */
  lemma ChunksStandAlone(text: string)
    ensures forall c | c in SplitSql(text) :: SplitSql(c) == [c]
  {
    var t := Strip(text, Outside);
    StripIsClean(text, Outside);
    assert [] + t == t;
    ChunksAreStatements(t, Outside, 0, []);
    forall c | c in SplitSql(text) ensures SplitSql(c) == [c] {
      StatementSplitsToItself(c);
    }
  }

  /** A statement whose quotes and braces are closed at its end. */
  predicate Closed(s: string) {
    Statement(s) && Scan(s, Outside) == Outside && ScanDepth(s, Outside, 0) == 0
  }

  /** Each piece followed by its `;`, then `tail`. */
  function Terminated(pieces: seq<string>, tail: string): string {
    if pieces == [] then tail else pieces[0] + ";" + Terminated(pieces[1..], tail)
  }

  lemma {:induction false} BlankScan(s: string, depth: int)
    requires Blank(s)
    ensures Scan(s, Outside) == Outside && ScanDepth(s, Outside, depth) == depth
    ensures Clean(s, Outside) && NoCut(s, Outside, depth)
  {
    if s != [] {
      assert IsSpace(s[0]);
      BlankScan(s[1..], depth);
    }
  }

  lemma {:induction false} TerminatedIsClean(pieces: seq<string>, tail: string)
    requires (forall p | p in pieces :: Closed(p)) && Blank(tail)
    ensures Clean(Terminated(pieces, tail), Outside)
  {
    if pieces == [] {
      BlankScan(tail, 0);
    } else {
      var rest := Terminated(pieces[1..], tail);
      TerminatedIsClean(pieces[1..], tail);
      assert pieces[0] in pieces;
      assert (";" + rest)[1..] == rest;
      assert Clean(";" + rest, Outside);
      CleanConcat(pieces[0], ";" + rest, Outside);
      assert Terminated(pieces, tail) == pieces[0] + (";" + rest);
    }
  }

  lemma {:induction false} ChunksPrefix(a: string, b: string, q: Quote, depth: int, cur: string)
    requires NoCut(a, q, depth)
    ensures Chunks(a + b, q, depth, cur) == Chunks(b, Scan(a, q), ScanDepth(a, q, depth), cur + a)
  {
    if a == [] {
      assert a + b == b && cur + a == cur;
    } else {
      assert (a + b)[1..] == a[1..] + b;
      ChunksPrefix(a[1..], b, Step(q, a[0]), Nest(depth, q, a[0]), cur + [a[0]]);
      assert cur + [a[0]] + a[1..] == cur + a;
    }
  }

  lemma {:induction false} ChunksOfTerminated(pieces: seq<string>, tail: string)
    requires (forall p | p in pieces :: Closed(p)) && Blank(tail)
    ensures Chunks(Terminated(pieces, tail), Outside, 0, []) == pieces
  {
    if pieces == [] {
      BlankScan(tail, 0);
      UncutChunk(tail, Outside, 0, []);
      assert [] + tail == tail;
    } else {
      var p, rest := pieces[0], Terminated(pieces[1..], tail);
      assert p in pieces;
      ChunksOfTerminated(pieces[1..], tail);
      assert Terminated(pieces, tail) == p + (";" + rest);
      ChunksPrefix(p, ";" + rest, Outside, 0, []);
      assert [] + p == p && (";" + rest)[1..] == rest;
    }
  }

  /** Splitting gives back any list of closed statements from their `;`-terminated
      concatenation, whitespace after the last included. */
  lemma SplitTerminated(pieces: seq<string>, tail: string)
    requires (forall p | p in pieces :: Closed(p)) && Blank(tail)
    ensures SplitSql(Terminated(pieces, tail)) == pieces
  {
    TerminatedIsClean(pieces, tail);
    CleanIsKept(Terminated(pieces, tail), Outside);
    ChunksOfTerminated(pieces, tail);
  }

  /** Leading whitespace does not open anything. */
  lemma ClosedAfterBlank(blank: string, s: string)
    requires Blank(blank) && Closed(s)
    ensures Closed(blank + s)
  {
    BlankScan(blank, 0);
    ScanConcat(blank, s, Outside, 0);
    CleanConcat(blank, s, Outside);
    assert blank != [] ==> IsSpace(blank[|blank| - 1]);
    var i :| 0 <= i < |s| && !IsSpace(s[i]);
    assert (blank + s)[|blank| + i] == s[i];
  }
}
