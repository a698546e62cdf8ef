/** Reviewed rollouts: a plan printed as text for a human, and the text read back. */
module Rollout {
  import opened Text
  import opened SqlText

  // ----- lines -----

  /** `str::lines`: a line ends at a newline, and a carriage return right before it goes too. */
  function Lines(s: string): seq<string>
    decreases |s|
  {
    if s == [] then []
    else
      var n := LineEnd(s);
      if n == |s| then [s] else [DropReturn(s[..n])] + Lines(s[n + 1..])
  }

  function DropReturn(s: string): string {
    if s != [] && s[|s| - 1] == '\r' then s[..|s| - 1] else s
  }

  // ----- plans and rollouts -----

  datatype OverrideFile = OverrideFile(filename: string, checksum: string, statements: seq<string>)

  /** `statements` is meant to be the overrides' statements in order, then the diff's. */
  datatype Plan = Plan(checksum: string, pending: seq<OverrideFile>, statements: seq<string>)

  datatype Rollout = Rollout(checksum: Option<string>, overrides: seq<OverrideFile>, diff: seq<string>)

  function StatementText(statements: seq<string>): string {
    if statements == [] then [] else statements[0] + ";\n" + StatementText(statements[1..])
  }

  lemma {:induction false} StatementTextConcat(a: seq<string>, b: seq<string>)
    ensures StatementText(a + b) == StatementText(a) + StatementText(b)
  {
    if a == [] {
      assert a + b == b;
    } else {
      assert (a + b)[1..] == a[1..] + b;
      StatementTextConcat(a[1..], b);
    }
  }

  // ----- rendering -----

  function HeaderText(pending: seq<OverrideFile>): string {
    if pending == [] then []
    else HeaderText(pending[..|pending| - 1])
         + ("-- override: " + pending[|pending| - 1].filename + " (" + pending[|pending| - 1].checksum + ")\n")
  }

  /** The statement index reached after the sections of `pending`: each takes as many statements
      as its file has, as far as there are any. */
  function IndexAfter(pending: seq<OverrideFile>, statements: seq<string>): (n: nat)
    ensures n <= |statements|
  {
    if pending == [] then 0
    else
      var idx := IndexAfter(pending[..|pending| - 1], statements);
      var wanted := idx + |pending[|pending| - 1].statements|;
      if wanted <= |statements| then wanted else |statements|
  }

  function SectionText(filename: string, statements: seq<string>): string {
    "\n-- override-begin: " + filename + "\n" + StatementText(statements) + "-- override-end\n"
  }

  function SectionsText(pending: seq<OverrideFile>, statements: seq<string>): string {
    if pending == [] then []
    else
      var init, o := pending[..|pending| - 1], pending[|pending| - 1];
      var from, to := IndexAfter(init, statements), IndexAfter(pending, statements);
      assert from <= to;
      SectionsText(init, statements) + SectionText(o.filename, statements[from..to])
  }

  function Render(plan: Plan): string {
    "-- arcadedb-migrate rollout\n" + ("-- checksum: " + plan.checksum + "\n") + HeaderText(plan.pending)
    + SectionsText(plan.pending, plan.statements)
    + ("\n-- diff-begin\n" + StatementText(plan.statements[IndexAfter(plan.pending, plan.statements)..]) + "-- diff-end\n")
  }

  method RenderRollout(plan: Plan) returns (out: string)
    ensures out == Render(plan)
  {
    hide HeaderText, SectionsText, IndexAfter, StatementText;
    var head := RenderHeaders(plan.pending);
    var sections, idx := RenderSections(plan.pending, plan.statements);
    var rest, end := AppendStatements(plan.statements, idx, |plan.statements|);
    assert plan.statements[idx..end] == plan.statements[idx..];
    out := "-- arcadedb-migrate rollout\n" + ("-- checksum: " + plan.checksum + "\n") + head + sections
           + ("\n-- diff-begin\n" + rest + "-- diff-end\n");
  }

  method RenderHeaders(pending: seq<OverrideFile>) returns (out: string)
    ensures out == HeaderText(pending)
  {
    out := [];
    for i := 0 to |pending|
      invariant out == HeaderText(pending[..i])
    {
      assert pending[..i + 1][..i] == pending[..i];
      out := out + ("-- override: " + pending[i].filename + " (" + pending[i].checksum + ")\n");
    }
    assert pending[..|pending|] == pending;
  }

  method RenderSections(pending: seq<OverrideFile>, statements: seq<string>) returns (out: string, idx: nat)
    ensures idx == IndexAfter(pending, statements)
    ensures out == SectionsText(pending, statements)
  {
    hide StatementText;
    out, idx := [], 0;
    for i := 0 to |pending|
      invariant idx == IndexAfter(pending[..i], statements)
      invariant out == SectionsText(pending[..i], statements)
    {
      assert pending[..i + 1][..i] == pending[..i];
      var body;
      body, idx := AppendStatements(statements, idx, |pending[i].statements|);
      out := out + ("\n-- override-begin: " + pending[i].filename + "\n" + body + "-- override-end\n");
    }
    assert pending[..|pending|] == pending;
  }

  /** Up to `count` statements from `idx` on, each terminated. */
  method AppendStatements(statements: seq<string>, idx: nat, count: nat) returns (out: string, next: nat)
    requires idx <= |statements|
    ensures next == (if idx + count <= |statements| then idx + count else |statements|)
    ensures out == StatementText(statements[idx..next])
  {
    out, next := [], idx;
    for i := 0 to count
      invariant next == (if idx + i <= |statements| then idx + i else |statements|)
      invariant out == StatementText(statements[idx..next])
    {
      if next < |statements| {
        StatementTextConcat(statements[idx..next], [statements[next]]);
        assert statements[idx..next + 1] == statements[idx..next] + [statements[next]];
        assert StatementText([statements[next]]) == statements[next] + ";\n";
        out := out + (statements[next] + ";\n");
        next := next + 1;
      }
    }
  }

  // ----- parsing -----

  datatype LineKind = OverrideBegin(name: string) | OverrideEnd | DiffBegin | DiffEnd | Other

  function KindOf(line: string): LineKind {
    var t := Trim(line);
    if "-- override-begin:" <= t then OverrideBegin(Trim(t[|"-- override-begin:"|..]))
    else if t == "-- override-end" then OverrideEnd
    else if t == "-- diff-begin" then DiffBegin
    else if t == "-- diff-end" then DiffEnd
    else Other
  }

  datatype Section = Nowhere | InOverride(name: string) | InDiff

  datatype Header = Header(name: string, checksum: string)

  datatype Parser = Parser(rollout: Rollout, headers: seq<Header>, section: Section, buf: string)

  datatype ParseError = Legacy | OutsideSection(line: string) | DuplicateOverride(name: string)

  /** The trimmed, non-empty statements of a section's text. */
  function TrimmedStatements(chunks: seq<string>): seq<string> {
    if chunks == [] then []
    else TrimmedStatements(chunks[..|chunks| - 1]) + (if Trim(chunks[|chunks| - 1]) == [] then [] else [Trim(chunks[|chunks| - 1])])
  }

  function Flush(p: Parser): Parser {
    var statements := TrimmedStatements(SplitSql(p.buf));
    var rollout :=
      match p.section
      case Nowhere => p.rollout
      case InDiff => p.rollout.(diff := p.rollout.diff + statements)
      case InOverride(name) => p.rollout.(overrides := p.rollout.overrides + [OverrideFile(name, "", statements)]);
    Parser(rollout, p.headers, Nowhere, [])
  }

  function TrimClosers(s: string): string {
    if s != [] && s[|s| - 1] == ')' then TrimClosers(s[..|s| - 1]) else s
  }

  /** What a line outside every section adds. */
  function HeaderLine(p: Parser, line: string): Result<Parser, ParseError> {
    var t := Trim(line);
    if "-- checksum:" <= t then Ok(p.(rollout := p.rollout.(checksum := Some(Trim(t[|"-- checksum:"|..])))))
    else if "-- override:" <= t then
      var rest := t[|"-- override:"|..];
      var at := Find(rest, " (");
      if at.None? then Ok(p)
      else Ok(p.(headers := p.headers + [Header(Trim(rest[..at.value]), Trim(TrimClosers(rest[at.value + 2..])))]))
    else if t == [] || "--" <= t then Ok(p)
    else Err(OutsideSection(t))
  }

  function ParseLine(p: Parser, line: string): Result<Parser, ParseError> {
    match KindOf(line)
    case OverrideBegin(name) => Ok(Flush(p).(section := InOverride(name)))
    case OverrideEnd => Ok(Flush(p))
    case DiffBegin => Ok(Flush(p).(section := InDiff))
    case DiffEnd => Ok(Flush(p))
    case Other => if p.section.Nowhere? then HeaderLine(p, line) else Ok(p.(buf := p.buf + line + "\n"))
  }

  function ParseLines(p: Parser, lines: seq<string>): Result<Parser, ParseError>
    decreases |lines|
  {
    hide ParseLine;
    if lines == [] then Ok(p)
    else
      var r := ParseLine(p, lines[0]);
      if r.Err? then r else ParseLines(r.value, lines[1..])
  }

  function SectionAt(sections: seq<OverrideFile>, name: string): (r: Option<nat>)
    ensures r.Some? ==> r.value < |sections| && sections[r.value].filename == name
    ensures r.Some? ==> forall i | 0 <= i < r.value :: sections[i].filename != name
    ensures r.None? ==> forall i | 0 <= i < |sections| :: sections[i].filename != name
  {
    if sections == [] then None
    else if sections[0].filename == name then Some(0)
    else
      var r := SectionAt(sections[1..], name);
      if r.None? then None else Some(r.value + 1)
  }

  /** Checksums come from the header; a header without a section adds an empty one. */
  function Merge(sections: seq<OverrideFile>, headers: seq<Header>): seq<OverrideFile> {
    if headers == [] then sections
    else
      var s := Merge(sections, headers[..|headers| - 1]);
      var h := headers[|headers| - 1];
      var at := SectionAt(s, h.name);
      if at.Some? then s[at.value := s[at.value].(checksum := h.checksum)] else s + [OverrideFile(h.name, h.checksum, [])]
  }

  function FirstDuplicate(sections: seq<OverrideFile>): (r: Option<nat>)
    ensures r.Some? ==> r.value < |sections| && exists j | 0 <= j < r.value :: sections[j].filename == sections[r.value].filename
    ensures r.None? ==> forall i, j | 0 <= j < i < |sections| :: sections[j].filename != sections[i].filename
  {
    if sections == [] then None
    else
      var init, last := sections[..|sections| - 1], |sections| - 1;
      var r := FirstDuplicate(init);
      if r.Some? then
        assert init[r.value] == sections[r.value];
        r
      else
        var at := SectionAt(init, sections[last].filename);
        if at.Some? then
          assert init[at.value] == sections[at.value];
          Some(last)
        else
          assert forall j | 0 <= j < last :: init[j] == sections[j];
          None
  }

  const START := Parser(Rollout(None, [], []), [], Nowhere, [])

  function Finish(p: Parser): Result<Rollout, ParseError> {
    var rollout := Flush(p).rollout;
    var merged := Merge(rollout.overrides, p.headers);
    var dup := FirstDuplicate(merged);
    if dup.Some? then Err(DuplicateOverride(merged[dup.value].filename)) else Ok(rollout.(overrides := merged))
  }

  function Parse(body: string): Result<Rollout, ParseError> {
    if !Contains(body, "-- diff-begin") then Err(Legacy)
    else
      var r := ParseLines(START, Lines(body));
      if r.Err? then Err(r.error) else Finish(r.value)
  }

  method CollectStatements(text: string) returns (out: seq<string>)
    ensures out == TrimmedStatements(SplitSql(text))
  {
    hide SplitSql;
    var chunks := SplitSqlStatements(text);
    out := [];
    for i := 0 to |chunks|
      invariant out == TrimmedStatements(chunks[..i])
    {
      assert chunks[..i + 1][..i] == chunks[..i];
      var t := Trim(chunks[i]);
      if t != [] { out := out + [t]; }
    }
    assert chunks[..|chunks|] == chunks;
  }

  method FlushSection(p: Parser) returns (q: Parser)
    ensures q == Flush(p)
  {
    var rollout := p.rollout;
    if p.section.InDiff? {
      var statements := CollectStatements(p.buf);
      rollout := rollout.(diff := rollout.diff + statements);
    } else if p.section.InOverride? {
      var statements := CollectStatements(p.buf);
      rollout := rollout.(overrides := rollout.overrides + [OverrideFile(p.section.name, "", statements)]);
    }
    q := Parser(rollout, p.headers, Nowhere, []);
  }

  method ParseRollout(body: string) returns (r: Result<Rollout, ParseError>)
    ensures r == Parse(body)
  {
    hide KindOf, HeaderLine, Flush, Merge, Contains, FirstDuplicate, Lines;
    if !Contains(body, "-- diff-begin") { return Err(Legacy); }
    var p := START;
    var lines := Lines(body);
    assert lines[0..] == lines;
    for i := 0 to |lines|
      invariant ParseLines(START, lines) == ParseLines(p, lines[i..])
    {
      var line := lines[i];
      assert lines[i..][0] == line && lines[i..][1..] == lines[i + 1..];
      match KindOf(line) {
        case OverrideBegin(name) =>
          p := FlushSection(p);
          p := p.(section := InOverride(name));
        case OverrideEnd => p := FlushSection(p);
        case DiffBegin =>
          p := FlushSection(p);
          p := p.(section := InDiff);
        case DiffEnd => p := FlushSection(p);
        case Other =>
          if p.section.Nowhere? {
            var h := HeaderLine(p, line);
            if h.Err? { return Err(h.error); }
            p := h.value;
          } else {
            p := p.(buf := p.buf + line + "\n");
          }
      }
    }
    assert lines[|lines|..] == [];
    var q := FlushSection(p);
    var merged := MergeHeaders(q.rollout.overrides, p.headers);
    var dup := FirstDuplicate(merged);
    if dup.Some? { return Err(DuplicateOverride(merged[dup.value].filename)); }
    return Ok(q.rollout.(overrides := merged));
  }

  method MergeHeaders(sections: seq<OverrideFile>, headers: seq<Header>) returns (merged: seq<OverrideFile>)
    ensures merged == Merge(sections, headers)
  {
    merged := sections;
    for i := 0 to |headers|
      invariant merged == Merge(sections, headers[..i])
    {
      assert headers[..i + 1][..i] == headers[..i];
      var at := SectionAt(merged, headers[i].name);
      if at.Some? {
        merged := merged[at.value := merged[at.value].(checksum := headers[i].checksum)];
      } else {
        merged := merged + [OverrideFile(headers[i].name, headers[i].checksum, [])];
      }
    }
    assert headers[..|headers|] == headers;
  }
}
