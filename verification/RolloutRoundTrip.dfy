/** A printed plan reads back as the plan. */
module RolloutRoundTrip {
  import opened Text
  import opened SqlText
  import opened Rollout

  // ----- feeding text to the parser, line by line -----

  function Feed(p: Parser, text: string): Result<Parser, ParseError> {
    ParseLines(p, Lines(text))
  }

  /** A line that survives being printed and read. */
  predicate PlainLine(s: string) {
    '\n' !in s && '\r' !in s
  }

  /** Text of whole lines. */
  predicate WholeLines(s: string) {
    s != [] ==> s[|s| - 1] == '\n'
  }

  lemma {:induction false} LineEndAt(a: string, b: string)
    requires '\n' !in a
    ensures LineEnd(a + "\n" + b) == |a|
  {
    if a != [] {
      assert (a + "\n" + b)[1..] == a[1..] + "\n" + b;
      LineEndAt(a[1..], b);
    }
  }

  lemma LineEndInside(s: string)
    requires s != [] && WholeLines(s)
    ensures LineEnd(s) < |s|
  {
    hide LineEnd;
    assert s[|s| - 1] in s && s[..|s|] == s;
  }

  lemma FirstLine(l: string, rest: string)
    requires '\n' !in l
    ensures Lines(l + "\n" + rest) == [DropReturn(l)] + Lines(rest)
  {
    hide LineEnd, DropReturn;
    LineEndAt(l, rest);
    var s := l + "\n" + rest;
    assert s[..|l|] == l && s[|l| + 1..] == rest;
  }

  lemma NoLines()
    ensures Lines([]) == []
  {
  }

  lemma {:induction false} LinesConcat(a: string, b: string)
    requires WholeLines(a)
    ensures Lines(a + b) == Lines(a) + Lines(b)
    decreases |a|
  {
    hide LineEnd, DropReturn, Lines;
    if a == [] {
      assert a + b == b;
      NoLines();
    } else {
      LineEndInside(a);
      var n := LineEnd(a);
      var l, rest := a[..n], a[n + 1..];
      FirstLine(l, rest);
      FirstLine(l, rest + b);
      assert a == l + "\n" + rest && a + b == l + "\n" + (rest + b);
      LinesConcat(rest, b);
    }
  }

  lemma {:induction false} ParseLinesConcat(p: Parser, a: seq<string>, b: seq<string>)
    ensures ParseLines(p, a).Ok? ==> ParseLines(p, a + b) == ParseLines(ParseLines(p, a).value, b)
    decreases |a|
  {
    hide ParseLine;
    if a == [] {
      assert a + b == b;
    } else {
      assert (a + b)[0] == a[0] && (a + b)[1..] == a[1..] + b;
      var r := ParseLine(p, a[0]);
      if r.Ok? { ParseLinesConcat(r.value, a[1..], b); }
    }
  }

  lemma FeedConcat(p: Parser, a: string, q: Parser, b: string)
    requires WholeLines(a) && Feed(p, a) == Ok(q)
    ensures Feed(p, a + b) == Feed(q, b)
  {
    hide Lines, ParseLines;
    LinesConcat(a, b);
    ParseLinesConcat(p, Lines(a), Lines(b));
  }

  lemma OneLine(p: Parser, l: string)
    ensures ParseLines(p, [l]) == ParseLine(p, l)
  {
    hide ParseLine;
    var r := ParseLine(p, l);
    if r.Ok? { assert ParseLines(r.value, []) == Ok(r.value); }
    assert [l][1..] == [];
  }

  lemma FeedLine(p: Parser, l: string)
    requires PlainLine(l)
    ensures Feed(p, l + "\n") == ParseLine(p, l)
  {
    hide ParseLine, LineEnd, Lines;
    FirstLine(l, "");
    NoLines();
    assert l + "\n" + "" == l + "\n";
    if l != [] { assert l[|l| - 1] in l; }
    assert Lines(l + "\n") == [l];
    OneLine(p, l);
  }

  // ----- what each printed line means -----

  /** The parts of `prefix`, a space and trimmed text. */
  lemma PrefixedLine(prefix: string, rest: string)
    requires prefix != [] && Trimmed(prefix) && Trimmed(rest)
    ensures prefix <= Trim(prefix + " " + rest)
    ensures Trim(Trim(prefix + " " + rest)[|prefix|..]) == rest
  {
    hide Trim, IsSpace;
    Space();
    TrimTrimmed([]);
    if rest == [] {
      TrimAround([], prefix, " ");
      assert [] + prefix + " " == prefix + " " + rest;
      assert prefix[|prefix|..] == [];
    } else {
      TrimTrimmed(prefix + " " + rest);
      TrimAround(" ", rest, []);
      assert (prefix + " " + rest)[|prefix|..] == " " + rest + [];
    }
  }

  lemma Space()
    ensures IsSpace(' ') && IsSpace('\n')
    ensures !IsSpace('-') && !IsSpace(':') && !IsSpace(')')
  {
  }

  lemma BeginLine(name: string)
    requires Trimmed(name)
    ensures KindOf("-- override-begin: " + name) == OverrideBegin(name)
  {
    hide Trim, IsSpace;
    Space();
    assert "-- override-begin: " + name == "-- override-begin:" + " " + name;
    PrefixedLine("-- override-begin:", name);
  }

  lemma MarkerLines()
    ensures KindOf("-- override-end") == OverrideEnd
    ensures KindOf("-- diff-begin") == DiffBegin
    ensures KindOf("-- diff-end") == DiffEnd
    ensures KindOf("") == Other
  {
    hide Trim;
    TrimTrimmed("-- override-end");
    TrimTrimmed("-- diff-begin");
    TrimTrimmed("-- diff-end");
    TrimTrimmed("");
  }

  /** Outside sections: the title, blank lines and the checksum line. */
  lemma TitleLine(p: Parser)
    requires p.section == Nowhere
    ensures ParseLine(p, "-- arcadedb-migrate rollout") == Ok(p)
  {
    hide Trim, Find;
    var line := "-- arcadedb-migrate rollout";
    NotSpace('t');
    TrimTrimmed(line);
    assert line[3] == 'a' && line[..2] == "--";
    assert KindOf(line) == Other;
    assert !("-- checksum:" <= line) && !("-- override:" <= line) && "--" <= line;
  }

  lemma HeaderLines(p: Parser, checksum: string)
    requires p.section == Nowhere && Trimmed(checksum)
    ensures ParseLine(p, "") == Ok(p)
    ensures ParseLine(p, "-- checksum: " + checksum) == Ok(p.(rollout := p.rollout.(checksum := Some(checksum))))
  {
    hide Trim, IsSpace, Find;
    Space();
    TrimTrimmed("");
    assert "-- checksum: " + checksum == "-- checksum:" + " " + checksum;
    PrefixedLine("-- checksum:", checksum);
  }

  lemma NotSpace(c: char)
    requires 'a' <= c <= 'z'
    ensures !IsSpace(c)
  {
  }

  /** A filename and checksum the header line can carry. */
  predicate HeaderSafe(o: OverrideFile) {
    && Trimmed(o.filename) && PlainLine(o.filename) && !Contains(" " + o.filename, " (")
    && Trimmed(o.checksum) && PlainLine(o.checksum) && (o.checksum != [] ==> o.checksum[|o.checksum| - 1] != ')')
  }

  lemma FirstParenthesis(f: string, after: string)
    requires !Contains(" " + f, " (")
    ensures Find(" " + f + " (" + after, " (") == Some(1 + |f|)
  {
    hide Find;
    var s := " " + f + " (" + after;
    assert s[1 + |f|..3 + |f|] == " (";
    forall i: nat | i < 1 + |f| ensures !At(s, " (", i) {
      assert !At(" " + f, " (", i);
      if i < |f| {
        assert s[i..i + 2] == (" " + f)[i..i + 2];
      } else {
        assert s[i + 1] == ' ' && s[i..i + 2][1] == ' ';
      }
    }
    FindAt(s, " (", 1 + |f|);
  }

  /** What follows the keyword of an override's header line. */
  function HeaderRest(o: OverrideFile): string {
    " " + o.filename + " (" + (o.checksum + ")")
  }

  function HeaderKey(): string {
    "-- override:"
  }

  function OverrideLineOf(o: OverrideFile): string {
    HeaderKey() + HeaderRest(o)
  }

  lemma OverrideLineText(o: OverrideFile)
    ensures OverrideLineOf(o) + "\n" == "-- override: " + o.filename + " (" + o.checksum + ")\n"
  {
  }

  /** A trimmed line that begins like a header's is neither a marker nor the checksum line. */
  lemma HeaderKind(line: string)
    requires "-- override:" <= line && Trimmed(line)
    ensures KindOf(line) == Other && !("-- checksum:" <= line)
  {
    hide Trim, IsSpace;
    TrimTrimmed(line);
    assert line[11] == ':' && line[3] == 'o';
  }

  lemma Prefixed(prefix: string, rest: string)
    requires prefix != [] && rest != [] && !IsSpace(prefix[0]) && !IsSpace(rest[|rest| - 1])
    ensures prefix <= prefix + rest && (prefix + rest)[|prefix|..] == rest
    ensures Trimmed(prefix + rest) && Trim(prefix + rest) == prefix + rest
  {
    hide Trim, IsSpace;
    TrimTrimmed(prefix + rest);
  }

  lemma OverrideLineKind(o: OverrideFile)
    ensures var line := OverrideLineOf(o);
            Trimmed(line) && Trim(line) == line && HeaderKey() <= line && line[|HeaderKey()|..] == HeaderRest(o)
  {
    hide Trim, IsSpace, HeaderRest, HeaderKey;
    Space();
    HeaderEnds(o);
    Prefixed(HeaderKey(), HeaderRest(o));
  }

  lemma HeaderEnds(o: OverrideFile)
    ensures HeaderKey() != [] && HeaderKey()[0] == '-'
    ensures HeaderRest(o) != [] && HeaderRest(o)[|HeaderRest(o)| - 1] == ')'
  {
  }

  lemma OverrideLineParts(o: OverrideFile)
    requires HeaderSafe(o)
    ensures var rest := HeaderRest(o);
            && Find(rest, " (") == Some(1 + |o.filename|)
            && Trim(rest[..1 + |o.filename|]) == o.filename
            && Trim(TrimClosers(rest[3 + |o.filename|..])) == o.checksum
  {
    hide Trim, IsSpace, Find, Contains, PlainLine;
    var rest := HeaderRest(o);
    FirstParenthesis(o.filename, o.checksum + ")");
    TrimTrimmed(o.checksum);
    assert rest[..1 + |o.filename|] == " " + o.filename;
    assert rest[3 + |o.filename|..] == o.checksum + ")";
    assert (o.checksum + ")")[..|o.checksum|] == o.checksum;
    assert TrimClosers(o.checksum + ")") == TrimClosers(o.checksum) == o.checksum;
    SpaceThen(o.filename);
  }

  lemma OverrideLine(p: Parser, o: OverrideFile)
    requires p.section == Nowhere && HeaderSafe(o)
    ensures ParseLine(p, OverrideLineOf(o)) == Ok(p.(headers := p.headers + [Header(o.filename, o.checksum)]))
  {
    hide Trim, Find, TrimClosers, KindOf, HeaderSafe, OverrideLineOf, HeaderRest;
    OverrideLineKind(o);
    HeaderKind(OverrideLineOf(o));
    OverrideLineParts(o);
  }

  lemma SpaceThen(s: string)
    requires Trimmed(s)
    ensures Trim(" " + s) == s
  {
    hide Trim;
    if s == [] {
      TrimBlank(" " + s);
    } else {
      TrimAround(" ", s, []);
      assert " " + s + [] == " " + s;
    }
  }

  // ----- statement bodies -----

  /** A statement the splitter gives back from a printed list: on its own it is one chunk, and
      whatever it opens it closes. */
  predicate Parted(st: string) {
    st != [] && Trimmed(st) && Closed(st)
  }

  /** A statement the printed form can carry: besides, no line of it can be taken for a section
      marker. */
  predicate Carried(st: string) {
    && Parted(st) && '\r' !in st
    && forall l | l in Lines(st + ";\n") :: KindOf(l) == Other
  }
  predicate AllCarried(statements: seq<string>) {
    forall st | st in statements :: Carried(st)
  }

  lemma {:induction false} BodyLine(p: Parser, s: string)
    requires p.section != Nowhere && WholeLines(s) && '\r' !in s
    requires forall l | l in Lines(s) :: KindOf(l) == Other
    ensures Feed(p, s) == Ok(p.(buf := p.buf + s))
    decreases |s|
  {
    hide KindOf, Lines, LineEnd, ParseLines;
    if s == [] {
      NoLines();
      NothingFed(p);
      assert p.buf + s == p.buf;
    } else {
      hide WholeLines, PlainLine;
      var l, rest := OneLineOff(s);
      FeedLine(p, l);
      var q := p.(buf := p.buf + l + "\n");
      FeedConcat(p, l + "\n", q, rest);
      BodyLine(q, rest);
      Regroup(p.buf, l, "\n");
      Regroup(p.buf, l + "\n", rest);
    }
  }

  /** Whole lines without carriage returns, taken apart after the first. */
  lemma OneLineOff(s: string) returns (l: string, rest: string)
    requires s != [] && WholeLines(s) && '\r' !in s
    ensures s == (l + "\n") + rest && WholeLines(rest) && WholeLines(l + "\n") && PlainLine(l) && '\r' !in rest
    ensures l in Lines(s) && forall m | m in Lines(rest) :: m in Lines(s)
  {
    hide Lines, LineEnd;
    LineEndInside(s);
    var n := LineEnd(s);
    l, rest := s[..n], s[n + 1..];
    assert s == l + "\n" + rest;
    FirstLine(l, rest);
    assert DropReturn(l) == l by { if l != [] { assert l[|l| - 1] in l; } }
  }

  lemma NothingFed(p: Parser)
    ensures ParseLines(p, []) == Ok(p)
  {
  }

  lemma {:induction false} BodyLines(p: Parser, statements: seq<string>)
    requires p.section != Nowhere && AllCarried(statements)
    ensures Feed(p, StatementText(statements)) == Ok(p.(buf := p.buf + StatementText(statements)))
    ensures WholeLines(StatementText(statements))
    decreases |statements|
  {
    hide Feed, Lines, KindOf, Carried, WholeLines;
    if statements == [] {
      EmptyFeed(p);
      assert p.buf + [] == p.buf;
      NothingIsWhole();
    } else {
      var line, rest := statements[0] + ";\n", StatementText(statements[1..]);
      assert Carried(statements[0]);
      CarriedLine(p, statements[0]);
      var q := p.(buf := p.buf + line);
      FeedConcat(p, line, q, rest);
      BodyLines(q, statements[1..]);
      WholeConcat(line, rest);
      Regroup(p.buf, line, rest);
    }
  }

  lemma NothingIsWhole()
    ensures WholeLines([])
  {
  }

  lemma CarriedLine(p: Parser, st: string)
    requires p.section != Nowhere && Carried(st)
    ensures Feed(p, st + ";\n") == Ok(p.(buf := p.buf + (st + ";\n")))
    ensures WholeLines(st + ";\n")
  {
    hide Feed, Lines, KindOf, Closed, Trimmed;
    BodyLine(p, st + ";\n");
  }

  lemma EmptyFeed(p: Parser)
    ensures Feed(p, []) == Ok(p)
  {
    NoLines();
    NothingFed(p);
  }

  /** The splitter's view of a section: every statement after the first begins with the newline
      that ended the line before. */
  function AfterNewlines(statements: seq<string>): (r: seq<string>)
    ensures |r| == |statements| && forall i | 0 <= i < |r| :: r[i] == "\n" + statements[i]
  {
    if statements == [] then [] else ["\n" + statements[0]] + AfterNewlines(statements[1..])
  }

  lemma {:induction false} AsTerminated(statements: seq<string>)
    ensures "\n" + StatementText(statements) == Terminated(AfterNewlines(statements), "\n")
  {
    if statements == [] {
      assert "\n" + [] == "\n";
    } else {
      AsTerminated(statements[1..]);
      var rest := StatementText(statements[1..]);
      assert "\n" + StatementText(statements) == "\n" + statements[0] + ";" + ("\n" + rest);
      assert AfterNewlines(statements)[1..] == AfterNewlines(statements[1..]);
    }
  }

  lemma {:induction false} TrimmedBack(chunks: seq<string>, statements: seq<string>)
    requires |chunks| == |statements|
    requires forall i | 0 <= i < |chunks| :: statements[i] != [] && Trim(chunks[i]) == statements[i]
    ensures TrimmedStatements(chunks) == statements
  {
    hide Trim;
    if chunks != [] {
      var n := |chunks| - 1;
      TrimmedBack(chunks[..n], statements[..n]);
      assert statements[..n] + [statements[n]] == statements;
    }
  }

  /** Splitting a section's text gives its statements back. */
  lemma SectionSplits(statements: seq<string>)
    requires forall st | st in statements :: Parted(st)
    ensures TrimmedStatements(SplitSql(StatementText(statements))) == statements
  {
    hide Trim, SplitSql, Closed, Lines, KindOf, IsSpace, Terminated, TrimmedStatements, StatementText;
    var pieces := if statements == [] then [] else [statements[0]] + AfterNewlines(statements[1..]);
    var tail := if statements == [] then "" else "\n";
    assert StatementText(statements) == Terminated(pieces, tail) by { PiecesOf(statements, pieces, tail); }
    Space();
    forall i | 0 <= i < |pieces| ensures Closed(pieces[i]) && statements[i] != [] && Trim(pieces[i]) == statements[i] {
      assert Parted(statements[i]);
      if i == 0 {
        TrimTrimmed(statements[0]);
      } else {
        assert pieces[i] == "\n" + statements[i];
        ClosedAfterBlank("\n", statements[i]);
        TrimAround("\n", statements[i], []);
        assert "\n" + statements[i] + [] == pieces[i];
      }
    }
    SplitTerminated(pieces, tail);
    TrimmedBack(pieces, statements);
  }

  lemma PiecesOf(statements: seq<string>, pieces: seq<string>, tail: string)
    requires pieces == if statements == [] then [] else [statements[0]] + AfterNewlines(statements[1..])
    requires tail == if statements == [] then "" else "\n"
    ensures StatementText(statements) == Terminated(pieces, tail)
  {
    hide AfterNewlines;
    if statements != [] {
      AsTerminated(statements[1..]);
      assert pieces[1..] == AfterNewlines(statements[1..]);
      var rest := StatementText(statements[1..]);
      assert statements[0] + ";\n" + rest == statements[0] + ";" + ("\n" + rest);
    }
  }

  // ----- sections -----

  /** A marked section: a blank line, its begin line, its statements, its end line. */
  lemma Marked(p: Parser, begin: string, statements: seq<string>, end: string)
    requires PlainLine(begin) && PlainLine(end) && AllCarried(statements) && p.section == Nowhere
    ensures var r := ParseLine(p, begin);
            r.Ok? && r.value.section != Nowhere ==>
              Feed(p, "\n" + (begin + "\n") + (StatementText(statements) + (end + "\n")))
              == ParseLine(r.value.(buf := r.value.buf + StatementText(statements)), end)
  {
    hide Feed, ParseLine, AllCarried, StatementText, PlainLine, WholeLines;
    var r := ParseLine(p, begin);
    if r.Ok? && r.value.section != Nowhere {
      var inside := r.value;
      HeaderLines(p, "");
      assert PlainLine("") && WholeLines("\n") && WholeLines(begin + "\n") by { Plain(begin); }
      FeedLine(p, "");
      assert "" + "\n" == "\n";
      FeedLine(p, begin);
      BodyLines(inside, statements);
      var body := StatementText(statements);
      var full := inside.(buf := inside.buf + body);
      FeedLine(full, end);
      FeedConcat(inside, body, full, end + "\n");
      FeedConcat(p, begin + "\n", inside, body + (end + "\n"));
      FeedConcat(p, "\n", p, (begin + "\n") + (body + (end + "\n")));
      assert "\n" + ((begin + "\n") + (body + (end + "\n"))) == "\n" + (begin + "\n") + (body + (end + "\n"));
    }
  }

  lemma Plain(s: string)
    ensures PlainLine("") && WholeLines("\n") && WholeLines(s + "\n")
  {
  }

  lemma BeginIsPlain(name: string)
    requires PlainLine(name)
    ensures PlainLine("-- override-begin: " + name) && PlainLine("-- override-end")
  {
  }

  lemma AllParted(statements: seq<string>)
    requires AllCarried(statements)
    ensures forall st | st in statements :: Parted(st)
  {
    hide Parted;
  }

  /** The parser inside an override's section with the section's text read, when it ends. */
  lemma SectionEnds(p: Parser, name: string, statements: seq<string>)
    requires p.section == Nowhere && p.buf == [] && AllCarried(statements)
    ensures var inside := p.(section := InOverride(name));
            var q := p.(rollout := p.rollout.(overrides := p.rollout.overrides + [OverrideFile(name, "", statements)]));
            Flush(p) == p && Flush(inside.(buf := inside.buf + StatementText(statements))) == q
  {
    hide AllCarried, TrimmedStatements, SplitSql, StatementText;
    AllParted(statements);
    SectionSplits(statements);
    assert [] + StatementText(statements) == StatementText(statements);
  }

  lemma SectionTextIs(name: string, statements: seq<string>)
    ensures SectionText(name, statements)
            == "\n" + (("-- override-begin: " + name) + "\n") + (StatementText(statements) + ("-- override-end" + "\n"))
    ensures WholeLines(SectionText(name, statements))
  {
    hide StatementText;
  }

  lemma SectionFeeds(p: Parser, name: string, statements: seq<string>)
    requires p.section == Nowhere && p.buf == []
    requires Trimmed(name) && PlainLine(name) && AllCarried(statements)
    ensures var q := p.(rollout := p.rollout.(overrides := p.rollout.overrides + [OverrideFile(name, "", statements)]));
            Feed(p, SectionText(name, statements)) == Ok(q)
    ensures WholeLines(SectionText(name, statements))
  {
    hide Feed, KindOf, AllCarried, StatementText, HeaderLine, Trimmed, PlainLine, Flush, SectionText, WholeLines;
    MarkerLines();
    BeginLine(name);
    BeginIsPlain(name);
    SectionEnds(p, name, statements);
    var q := p.(rollout := p.rollout.(overrides := p.rollout.overrides + [OverrideFile(name, "", statements)]));
    var begin, body, end := "-- override-begin: " + name, StatementText(statements), "-- override-end";
    Marked(p, begin, statements, end);
    SectionTextIs(name, statements);
  }

  function DiffText(diff: seq<string>): string {
    "\n-- diff-begin\n" + StatementText(diff) + "-- diff-end\n"
  }

  lemma DiffEnds(p: Parser, statements: seq<string>)
    requires p.section == Nowhere && p.buf == [] && p.rollout.diff == [] && AllCarried(statements)
    ensures Flush(p) == p
    ensures Flush(p.(section := InDiff).(buf := p.buf + StatementText(statements))) == p.(rollout := p.rollout.(diff := statements))
  {
    hide AllCarried, TrimmedStatements, SplitSql, StatementText;
    AllParted(statements);
    SectionSplits(statements);
    assert [] + StatementText(statements) == StatementText(statements) && [] + statements == statements;
  }

  lemma DiffTextIs(statements: seq<string>)
    ensures DiffText(statements) == "\n" + ("-- diff-begin" + "\n") + (StatementText(statements) + ("-- diff-end" + "\n"))
    ensures PlainLine("-- diff-begin") && PlainLine("-- diff-end")
  {
    hide StatementText;
  }

  lemma DiffFeeds(p: Parser, statements: seq<string>)
    requires p.section == Nowhere && p.buf == [] && p.rollout.diff == []
    requires AllCarried(statements)
    ensures Feed(p, DiffText(statements)) == Ok(p.(rollout := p.rollout.(diff := statements)))
  {
    hide Feed, KindOf, AllCarried, StatementText, HeaderLine, Flush, DiffText, PlainLine;
    MarkerLines();
    DiffEnds(p, statements);
    DiffTextIs(statements);
    Marked(p, "-- diff-begin", statements, "-- diff-end");
  }

  /** The overrides' statements, in order. */
  function OverrideStatements(pending: seq<OverrideFile>): seq<string> {
    if pending == [] then [] else OverrideStatements(pending[..|pending| - 1]) + pending[|pending| - 1].statements
  }

  function Headers(pending: seq<OverrideFile>): (r: seq<Header>)
    ensures |r| == |pending| && forall i | 0 <= i < |r| :: r[i] == Header(pending[i].filename, pending[i].checksum)
  {
    if pending == [] then []
    else Headers(pending[..|pending| - 1]) + [Header(pending[|pending| - 1].filename, pending[|pending| - 1].checksum)]
  }

  /** The sections as the body alone gives them: without checksums. */
  function Bare(pending: seq<OverrideFile>): (r: seq<OverrideFile>)
    ensures |r| == |pending| && forall i | 0 <= i < |r| :: r[i] == pending[i].(checksum := "")
  {
    if pending == [] then [] else Bare(pending[..|pending| - 1]) + [pending[|pending| - 1].(checksum := "")]
  }

  predicate OverrideSafe(o: OverrideFile) {
    HeaderSafe(o) && AllCarried(o.statements)
  }

  predicate AllSafe(pending: seq<OverrideFile>) {
    forall o | o in pending :: OverrideSafe(o)
  }

  lemma HeaderIsPlain(o: OverrideFile)
    requires HeaderSafe(o)
    ensures PlainLine(OverrideLineOf(o))
  {
    hide Trimmed, Contains;
  }

  lemma {:induction false} HeadersFeed(p: Parser, pending: seq<OverrideFile>)
    requires p.section == Nowhere && AllSafe(pending)
    ensures Feed(p, HeaderText(pending)) == Ok(p.(headers := p.headers + Headers(pending)))
    ensures WholeLines(HeaderText(pending))
  {
    hide Feed, ParseLine, HeaderSafe, AllCarried, PlainLine, OverrideLineOf;
    if pending == [] {
      EmptyFeed(p);
      assert p.headers + [] == p.headers;
    } else {
      var init, o := pending[..|pending| - 1], pending[|pending| - 1];
      HeadersFeed(p, init);
      var q := p.(headers := p.headers + Headers(init));
      assert OverrideSafe(o);
      OverrideLine(q, o);
      var line := OverrideLineOf(o);
      HeaderIsPlain(o);
      FeedLine(q, line);
      FeedConcat(p, HeaderText(init), q, line + "\n");
      OverrideLineText(o);
      assert HeaderText(pending) == HeaderText(init) + (line + "\n");
      assert q.headers + [Header(o.filename, o.checksum)] == p.headers + Headers(pending);
    }
  }

  /** The last section takes exactly its file's statements. */
  lemma LastSection(init: seq<OverrideFile>, o: OverrideFile, rest: seq<string>)
    requires var all := OverrideStatements(init) + (o.statements + rest);
             IndexAfter(init, all) == |OverrideStatements(init)|
    ensures var all := OverrideStatements(init + [o]) + rest;
            && all == OverrideStatements(init) + (o.statements + rest)
            && IndexAfter(init + [o], all) == |OverrideStatements(init + [o])|
            && SectionsText(init + [o], all) == SectionsText(init, all) + SectionText(o.filename, o.statements)
  {
    hide SectionText;
    var pending := init + [o];
    assert pending[..|pending| - 1] == init;
    var all := OverrideStatements(pending) + rest;
    assert all == OverrideStatements(init) + (o.statements + rest);
    assert all[|OverrideStatements(init)|..|OverrideStatements(pending)|] == o.statements;
  }

  lemma NameIsPlain(o: OverrideFile)
    requires HeaderSafe(o)
    ensures Trimmed(o.filename) && PlainLine(o.filename)
  {
  }

  lemma WholeConcat(a: string, b: string)
    requires WholeLines(a) && WholeLines(b)
    ensures WholeLines(a + b)
  {
  }

  lemma BareLast(init: seq<OverrideFile>, o: OverrideFile)
    ensures Bare(init + [o]) == Bare(init) + [o.(checksum := "")]
  {
    assert (init + [o])[..|init + [o]| - 1] == init;
  }

  lemma {:induction false} SectionsFeed(p: Parser, pending: seq<OverrideFile>, rest: seq<string>)
    requires p.section == Nowhere && p.buf == [] && AllSafe(pending)
    ensures IndexAfter(pending, OverrideStatements(pending) + rest) == |OverrideStatements(pending)|
    ensures Feed(p, SectionsText(pending, OverrideStatements(pending) + rest))
            == Ok(p.(rollout := p.rollout.(overrides := p.rollout.overrides + Bare(pending))))
    ensures WholeLines(SectionsText(pending, OverrideStatements(pending) + rest))
    decreases |pending|
  {
    hide Feed, HeaderSafe, AllCarried, SectionText;
    var overrides := p.rollout.overrides;
    if pending == [] {
      EmptyFeed(p);
      assert overrides + [] == overrides;
    } else {
      hide SectionsText, IndexAfter, OverrideStatements, WholeLines, Bare, Trimmed, PlainLine;
      var init, o := pending[..|pending| - 1], pending[|pending| - 1];
      assert pending == init + [o];
      var all := OverrideStatements(pending) + rest;
      SectionsFeed(p, init, o.statements + rest);
      LastSection(init, o, rest);
      var q := p.(rollout := p.rollout.(overrides := overrides + Bare(init)));
      assert OverrideSafe(o);
      assert Trimmed(o.filename) && PlainLine(o.filename) by { NameIsPlain(o); }
      SectionFeeds(q, o.filename, o.statements);
      WholeConcat(SectionsText(init, all), SectionText(o.filename, o.statements));
      FeedConcat(p, SectionsText(init, all), q, SectionText(o.filename, o.statements));
      BareLast(init, o);
      Regroup(overrides, Bare(init), [o.(checksum := "")]);
    }
  }

  // ----- checksums -----

  predicate DistinctNames(pending: seq<OverrideFile>) {
    forall i, j | 0 <= i < j < |pending| :: pending[i].filename != pending[j].filename
  }

  lemma {:induction false} MergeFills(pending: seq<OverrideFile>, k: nat)
    requires DistinctNames(pending) && k <= |pending|
    ensures Merge(Bare(pending), Headers(pending[..k])) == pending[..k] + Bare(pending)[k..]
  {
    hide Bare, Headers, SectionAt, DistinctNames;
    if k > 0 {
      var headers := Headers(pending[..k]);
      assert pending[..k][..k - 1] == pending[..k - 1];
      MergeFills(pending, k - 1);
      assert headers[..k - 1] == Headers(pending[..k - 1]);
      OwnSection(pending, k - 1);
      FillOne(pending, Bare(pending), k - 1);
    }
  }

  lemma OwnSection(pending: seq<OverrideFile>, k: nat)
    requires DistinctNames(pending) && k < |pending|
    ensures SectionAt(pending[..k] + Bare(pending)[k..], pending[k].filename) == Some(k)
  {
    hide Bare, SectionAt;
    var s := pending[..k] + Bare(pending)[k..];
    forall i | 0 <= i < k ensures s[i].filename != pending[k].filename {
      assert s[i] == pending[i];
    }
    assert s[k] == Bare(pending)[k];
    SectionIs(s, pending[k].filename, k);
  }

  lemma FillOne(a: seq<OverrideFile>, b: seq<OverrideFile>, k: nat)
    requires k < |a| == |b| && b[k].(checksum := a[k].checksum) == a[k]
    ensures (a[..k] + b[k..])[k := a[k]] == a[..k + 1] + b[k + 1..]
    ensures (a[..k] + b[k..])[k] == b[k]
  {
  }

  lemma SectionIs(s: seq<OverrideFile>, name: string, k: nat)
    requires k < |s| && s[k].filename == name
    requires forall i | 0 <= i < k :: s[i].filename != name
    ensures SectionAt(s, name) == Some(k)
  {
    hide SectionAt;
  }

  // ----- the round trip -----

  /** What a plan must satisfy for its printed form to carry it. */
  predicate Printable(plan: Plan, diff: seq<string>) {
    && plan.statements == OverrideStatements(plan.pending) + diff
    && Trimmed(plan.checksum) && PlainLine(plan.checksum)
    && AllSafe(plan.pending) && DistinctNames(plan.pending) && AllCarried(diff)
  }

  /** Reading back a printed plan gives its checksum, every override with its filename,
      checksum and statements in order, and the diff. */
  lemma RenderedPlanReadsBack(plan: Plan, diff: seq<string>)
    requires Printable(plan, diff)
    ensures Parse(Render(plan)) == Ok(Rollout(Some(plan.checksum), plan.pending, diff))
  {
    hide Feed, AllSafe, AllCarried, Trimmed, PlainLine, Contains, HeaderText, SectionsText, TitleText, DiffText, Render, Finish;
    var heads, sections := HeaderText(plan.pending), SectionsText(plan.pending, plan.statements);
    var last := DiffText(diff);
    TitleFeeds(plan.checksum);
    var p1 := START.(rollout := START.rollout.(checksum := Some(plan.checksum)));
    HeadersFeed(p1, plan.pending);
    var p2 := p1.(headers := Headers(plan.pending));
    assert [] + Headers(plan.pending) == Headers(plan.pending);
    SectionsFeed(p2, plan.pending, diff);
    var p3 := p2.(rollout := p2.rollout.(overrides := Bare(plan.pending)));
    assert [] + Bare(plan.pending) == Bare(plan.pending);
    DiffFeeds(p3, diff);
    var p4 := p3.(rollout := p3.rollout.(diff := diff));

    FeedConcat(p2, sections, p3, last);
    FeedConcat(p1, heads, p2, sections + last);
    FeedConcat(START, TitleText(plan.checksum), p1, heads + (sections + last));
    RenderedParts(plan, diff);
    FinishMerges(p4, plan.pending);
    FeedIs(START, Render(plan));
  }

  lemma TitleFeeds(checksum: string)
    requires Trimmed(checksum) && PlainLine(checksum)
    ensures Feed(START, TitleText(checksum)) == Ok(START.(rollout := START.rollout.(checksum := Some(checksum))))
    ensures WholeLines(TitleText(checksum))
  {
    hide Feed, ParseLine, Trimmed, PlainLine;
    var title, sum := "-- arcadedb-migrate rollout", "-- checksum: " + checksum;
    TitleIsPlain(checksum);
    TitleLine(START);
    FeedLine(START, title);
    HeaderLines(START, checksum);
    FeedLine(START, sum);
    FeedConcat(START, title + "\n", START, sum + "\n");
    assert TitleText(checksum) == (title + "\n") + (sum + "\n");
  }

  lemma TitleIsPlain(checksum: string)
    requires PlainLine(checksum)
    ensures PlainLine("-- arcadedb-migrate rollout") && PlainLine("-- checksum: " + checksum)
  {
  }

  lemma FeedIs(p: Parser, text: string)
    ensures Feed(p, text) == ParseLines(p, Lines(text))
  {
  }

  function TitleText(checksum: string): string {
    "-- arcadedb-migrate rollout\n" + ("-- checksum: " + checksum + "\n")
  }

  lemma RenderedParts(plan: Plan, diff: seq<string>)
    requires plan.statements == OverrideStatements(plan.pending) + diff
    requires IndexAfter(plan.pending, plan.statements) == |OverrideStatements(plan.pending)|
    ensures Render(plan) == TitleText(plan.checksum) + (HeaderText(plan.pending)
              + (SectionsText(plan.pending, plan.statements) + DiffText(diff)))
    ensures Contains(Render(plan), "-- diff-begin")
  {
    hide HeaderText, SectionsText, StatementText, IndexAfter, DiffText, TitleText, Contains;
    RenderIsJoined(plan, diff);
    var heads, sections := HeaderText(plan.pending), SectionsText(plan.pending, plan.statements);
    Associate(TitleText(plan.checksum), heads, sections, DiffText(diff));
    DiffHasMarker(diff);
    ContainsInSuffix(TitleText(plan.checksum) + heads + sections, DiffText(diff), "-- diff-begin");
  }

  lemma RenderIsJoined(plan: Plan, diff: seq<string>)
    requires plan.statements == OverrideStatements(plan.pending) + diff
    requires IndexAfter(plan.pending, plan.statements) == |OverrideStatements(plan.pending)|
    ensures Render(plan) == TitleText(plan.checksum) + HeaderText(plan.pending)
              + SectionsText(plan.pending, plan.statements) + DiffText(diff)
  {
    hide HeaderText, SectionsText, StatementText, IndexAfter;
    assert plan.statements[|OverrideStatements(plan.pending)|..] == diff;
  }

  lemma Associate(a: string, b: string, c: string, d: string)
    ensures a + b + c + d == a + (b + (c + d))
  {
  }

  lemma DiffHasMarker(diff: seq<string>)
    ensures Contains(DiffText(diff), "-- diff-begin")
  {
    hide StatementText, Contains;
    var after := "\n" + StatementText(diff) + "-- diff-end\n";
    ContainsMiddle("\n", "-- diff-begin", after);
    assert DiffText(diff) == "\n" + "-- diff-begin" + after;
  }

  lemma ContainsInSuffix(a: string, b: string, sub: string)
    requires Contains(b, sub)
    ensures Contains(a + b, sub)
  {
    var i: nat :| i <= |b| && At(b, sub, i);
    assert (a + b)[|a| + i..|a| + i + |sub|] == b[i..i + |sub|];
    assert At(a + b, sub, |a| + i);
  }

  lemma FinishMerges(p: Parser, pending: seq<OverrideFile>)
    requires p.section == Nowhere && p.headers == Headers(pending) && p.rollout.overrides == Bare(pending)
    requires DistinctNames(pending)
    ensures Finish(p) == Ok(p.rollout.(overrides := pending))
  {
    hide Merge, TrimmedStatements, SplitSql;
    MergeFills(pending, |pending|);
    assert pending[..|pending|] == pending && pending + Bare(pending)[|pending|..] == pending;
    assert FirstDuplicate(pending) == None;
  }

  lemma TrimShrinks(s: string)
    ensures |Trim(s)| <= |s|
    ensures s != [] && IsSpace(s[0]) ==> |Trim(s)| < |s|
  {
  }

  lemma FirstOccurrence(s: string, sub: string, at: nat)
    requires At(s, sub, at)
    ensures Find(s, sub).Some? && Find(s, sub).value <= at
  {
    hide FindFrom;
    Within(s, sub, at);
    assert Contains(s, sub);
  }

  /** The printed header line of any override adds one header, and the name it adds is the
      override's exactly when no space and opening parenthesis meet in it, the leading space
      included. */
  lemma HeaderNameReadsBackIff(p: Parser, o: OverrideFile)
    requires p.section == Nowhere && Trimmed(o.filename)
    ensures var r := ParseLine(p, OverrideLineOf(o));
            && r.Ok? && |r.value.headers| == |p.headers| + 1
            && r.value == p.(headers := p.headers + [r.value.headers[|p.headers|]])
            && (r.value.headers[|p.headers|].name == o.filename <==> !Contains(" " + o.filename, " ("))
  {
    hide Trim, Find, TrimClosers, KindOf, OverrideLineOf, HeaderRest;
    OverrideLineKind(o);
    HeaderKind(OverrideLineOf(o));
    NameBeforeParenthesisIff(o);
  }

  lemma NameBeforeParenthesisIff(o: OverrideFile)
    requires Trimmed(o.filename)
    ensures var rest, f := HeaderRest(o), o.filename;
            && Find(rest, " (").Some?
            && (Trim(rest[..Find(rest, " (").value]) == f <==> !Contains(" " + f, " ("))
  {
    hide Trim, Find, IsSpace;
    Space();
    var f, after := o.filename, o.checksum + ")";
    var rest := " " + f + " (" + after;
    if Contains(" " + f, " (") {
      var at: nat :| at <= |" " + f| && At(" " + f, " (", at);
      assert rest[at..at + 2] == (" " + f)[at..at + 2];
      FirstOccurrence(rest, " (", at);
      TrimShrinks(rest[..Find(rest, " (").value]);
    } else {
      FirstParenthesis(f, after);
      assert rest[..1 + |f|] == " " + f;
      SpaceThen(f);
    }
  }

  /** A parsed rollout never lists an override twice, so its files cannot collide in the registry;
      what is refused for that reason does list one twice. */
  lemma ParsedNamesDiffer(body: string)
    ensures Parse(body).Ok? ==> DistinctNames(Parse(body).value.overrides)
    ensures Parse(body).Err? && Parse(body).error.DuplicateOverride? && ParseLines(START, Lines(body)).Ok? ==>
              var p := ParseLines(START, Lines(body)).value;
              !DistinctNames(Merge(Flush(p).rollout.overrides, p.headers))
  {
    hide ParseLines, Lines, Flush, Merge, Contains;
  }
}
