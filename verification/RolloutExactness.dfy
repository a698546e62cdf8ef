/** Exactly which statements and checksums a printed rollout gives back. */
module RolloutExactness {
  import opened Text
  import opened SqlText
  import opened Rollout
  import opened RolloutRoundTrip

  // ----- statements -----

  lemma {:induction false} TrimmedConcat(a: seq<string>, b: seq<string>)
    ensures TrimmedStatements(a + b) == TrimmedStatements(a) + TrimmedStatements(b)
  {
    hide Trim;
    if b == [] {
      assert a + b == a;
    } else {
      var n := |b| - 1;
      assert (a + b)[..|a + b| - 1] == a + b[..n];
      TrimmedConcat(a, b[..n]);
    }
  }

  /** What is printed back is the trimmed text of some chunk. */
  lemma {:induction false} FromSomeChunk(chunks: seq<string>, st: string) returns (c: string)
    requires st in TrimmedStatements(chunks)
    ensures c in chunks && Trim(c) == st && st != []
  {
    hide Trim;
    var init, last := chunks[..|chunks| - 1], chunks[|chunks| - 1];
    if st in TrimmedStatements(init) { c := FromSomeChunk(init, st); } else { c := last; }
  }

  /** A chunk stays one when the whitespace around it goes. */
  lemma TrimmedStatement(c: string)
    requires Statement(c)
    ensures Trim(c) != [] && Trimmed(Trim(c)) && Statement(Trim(c))
  {
    hide Trim, Clean, NoCut, IsSpace;
    var before, after := TrimmedParts(c);
    var st := Trim(c);
    TrimIsTrimmed(c);
    TrimBlank(c);
    BlankScan(before, 0);
    assert c == before + (st + after);
    CleanConcat(before, st + after, Outside);
    CleanConcat(st, after, Outside);
    ScanConcat(before, st + after, Outside, 0);
    ScanConcat(st, after, Outside, 0);
    assert st[0] == st[0] && !IsSpace(st[0]);
  }

  /** Everything the splitter gives back is, trimmed, a chunk that stands on its own. */
  lemma SplitStatement(text: string, st: string)
    requires st in TrimmedStatements(SplitSql(text))
    ensures st != [] && Trimmed(st) && Statement(st)
  {
    hide Trim, Clean, Statement, Strip, TrimmedStatements;
    var t := Strip(text, Outside);
    StripIsClean(text, Outside);
    assert [] + t == t;
    NothingScanned();
    ChunksAreStatements(t, Outside, 0, []);
    var c := FromSomeChunk(SplitSql(text), st);
    TrimmedStatement(c);
  }

  lemma NothingScanned()
    ensures NoCut([], Outside, 0) && Scan([], Outside) == Outside && ScanDepth([], Outside, 0) == 0
  {
  }

  /** Comment-free text is kept in front of anything that does not begin with a `-`. */
  lemma {:induction false} StripPrefix(a: string, b: string, q: Quote)
    requires Clean(a, q) && b != [] && b[0] != '-'
    ensures Strip(a + b, q) == a + Strip(b, Scan(a, q))
  {
    hide LineEnd;
    if a == [] {
      assert a + b == b;
      assert [] + Strip(b, q) == Strip(b, q);
    } else {
      TailConcat(a, b);
      StripPrefix(a[1..], b, Step(q, a[0]));
      Regroup([a[0]], a[1..], Strip(b, Scan(a, q)));
      assert [a[0]] + a[1..] == a;
      if |a| > 1 { assert (a + b)[1] == a[1]; } else { assert (a + b)[1] == b[0]; }
    }
  }

  /** Where the first cut falls, if anywhere. */
  lemma {:induction false} FirstChunk(s: string, q: Quote, depth: int, cur: string) returns (k: nat)
    ensures k <= |s|
    ensures k < |s| ==> Chunks(s, q, depth, cur) == Emit(cur + s[..k]) + Chunks(s[k + 1..], Outside, 0, [])
    ensures k == |s| ==> Chunks(s, q, depth, cur) == Emit(cur + s)
    ensures s != [] && !Cuts(q, depth, s[0]) ==> k > 0
    decreases |s|
  {
    hide Emit, Nest;
    if s == [] {
      k := 0;
      assert cur + s == cur;
    } else if Cuts(q, depth, s[0]) {
      k := 0;
      assert cur + s[..0] == cur;
    } else {
      var j := FirstChunk(s[1..], Step(q, s[0]), Nest(depth, q, s[0]), cur + [s[0]]);
      k := j + 1;
      assert s[..k] == [s[0]] + s[1..][..j];
      Regroup(cur, [s[0]], s[1..][..j]);
      if k == |s| {
        Regroup(cur, [s[0]], s[1..]);
        assert [s[0]] + s[1..] == s;
      }
    }
  }

  /** A chunk that holds more than whitespace behind a trimmed text is not that text. */
  lemma LongerChunk(lead: string, st: string, more: string)
    requires Blank(lead) && st != [] && Trimmed(st) && more != [] && more[0] == ';'
    ensures !Blank(lead + st + more) && Trim(lead + st + more) != st
  {
    hide Trim, Blank;
    var c := lead + st + more;
    assert c[|lead|] == st[0] && c[|lead| + |st|] == ';';
    var before, after := TrimmedParts(c);
    assert c[..|before|] == before && c[|before + Trim(c)|..] == after;
    BlankEnds(c, |before|, |lead|);
    BlankBegins(c, |before + Trim(c)|, |lead| + |st|);
    assert c[..|c|] == c;
    assert !Blank(c) by { hide IsSpace; assert !IsSpace(c[|lead|]); NotBlank(c, |lead|); }
  }

  lemma NotBlank(s: string, m: nat)
    requires m < |s| && !IsSpace(s[m])
    ensures !Blank(s)
  {
    hide IsSpace;
  }

  lemma BlankEnds(s: string, n: nat, m: nat)
    requires n <= |s| && m < |s| && Blank(s[..n]) && !IsSpace(s[m])
    ensures n <= m
  {
    hide IsSpace;
    forall i | 0 <= i < n ensures IsSpace(s[i]) { assert s[..n][i] == s[i]; }
  }

  lemma BlankBegins(s: string, n: nat, m: nat)
    requires n <= |s| && m < |s| && Blank(s[n..]) && !IsSpace(s[m])
    ensures m < n
  {
    hide IsSpace;
    forall i | n <= i < |s| ensures IsSpace(s[i]) { assert s[n..][i - n] == s[i]; }
  }

  lemma HeadOf(a: string, b: seq<string>, s: seq<string>)
    requires [a] + b == s
    ensures s != [] && s[0] == a && s[1..] == b
  {
  }

  /** The first printed statement comes back only if the `;` behind it cuts. */
  lemma FirstIsClosed(lead: string, st: string, rest: string, tail: seq<string>)
    requires Blank(lead) && st != [] && Trimmed(st) && Statement(st)
    requires TrimmedStatements(SplitSql(lead + st + (";" + rest))) == [st] + tail
    ensures Closed(st) && TrimmedStatements(SplitSql(rest)) == tail
  {
    hide Trim, Clean, NoCut, Strip, Chunks, TrimmedStatements, Scan, ScanDepth, IsSpace, Blank;
    var q, depth := Scan(st, Outside), ScanDepth(st, Outside, 0);
    var x := Strip(";" + rest, q);
    LeadScans(lead, st);
    StripPrefix(lead + st, ";" + rest, Outside);
    ChunksPrefix(lead + st, x, Outside, 0, []);
    assert [] + (lead + st) == lead + st;
    SemicolonStays(rest, q);
    var k := FirstChunk(x, q, depth, lead + st);
    var chunk := lead + st + (if k < |x| then x[..k] else x);
    var others := if k < |x| then Chunks(x[k + 1..], Outside, 0, []) else [];
    if Cuts(q, depth, ';') {
      assert x[1..] == Strip(rest, Outside);
      CutsHere(x, q, depth, lead + st);
      assert TrimmedStatements(Emit(lead + st)) == [st] by { LeadTrims(lead, st); }
      TrimmedConcat(Emit(lead + st), Chunks(x[1..], Outside, 0, []));
      HeadOf(st, TrimmedStatements(Chunks(x[1..], Outside, 0, [])), [st] + tail);
    } else {
      LongerChunk(lead, st, if k < |x| then x[..k] else x);
      assert Chunks(x, q, depth, lead + st) == [chunk] + others;
      TrimmedConcat([chunk], others);
      TrimmedOne(chunk);
      HeadOf(Trim(chunk), TrimmedStatements(others), [st] + tail);
    }
  }

  lemma TrimmedOne(c: string)
    requires !Blank(c)
    ensures TrimmedStatements([c]) == [Trim(c)]
  {
    hide Trim;
    TrimBlank(c);
    assert [c][..0] == [];
  }

  lemma LeadTrims(lead: string, st: string)
    requires Blank(lead) && st != [] && Trimmed(st)
    ensures TrimmedStatements(Emit(lead + st)) == [st]
  {
    hide Trim, TrimmedStatements;
    TrimAround(lead, st, []);
    assert lead + st + [] == lead + st;
    TrimBlank(lead + st);
    TrimmedOne(lead + st);
  }

  lemma LeadScans(lead: string, st: string)
    requires Blank(lead) && Statement(st)
    ensures Clean(lead + st, Outside) && NoCut(lead + st, Outside, 0)
    ensures Scan(lead + st, Outside) == Scan(st, Outside) && ScanDepth(lead + st, Outside, 0) == ScanDepth(st, Outside, 0)
  {
    hide Clean, NoCut, Scan, ScanDepth, IsSpace;
    BlankScan(lead, 0);
    ScanConcat(lead, st, Outside, 0);
    CleanConcat(lead, st, Outside);
    assert lead != [] ==> lead[|lead| - 1] != '-' by { NotBlankDash(lead); }
  }

  lemma NotBlankDash(s: string)
    requires Blank(s)
    ensures '-' !in s
  {
    forall i | 0 <= i < |s| ensures s[i] != '-' { assert IsSpace(s[i]); }
  }

  lemma SemicolonStays(rest: string, q: Quote)
    ensures var x := Strip(";" + rest, q);
            x != [] && x[0] == ';' && x[1..] == Strip(rest, Step(q, ';'))
  {
    assert (";" + rest)[1..] == rest;
  }

  lemma CutsHere(x: string, q: Quote, depth: int, cur: string)
    requires x != [] && x[0] == ';' && Cuts(q, depth, ';')
    ensures Chunks(x, q, depth, cur) == Emit(cur) + Chunks(x[1..], Outside, 0, [])
  {
    hide Emit;
  }

  lemma {:induction false} SplitBackIsParted(lead: string, statements: seq<string>)
    requires Blank(lead)
    requires TrimmedStatements(SplitSql(lead + StatementText(statements))) == statements
    ensures forall st | st in statements :: Parted(st)
    decreases |statements|
  {
    hide Trim, SplitSql, TrimmedStatements, Statement, Scan, ScanDepth, IsSpace;
    if statements != [] {
      var st, rest := statements[0], StatementText(statements[1..]);
      var text := lead + StatementText(statements);
      SplitStatement(text, st);
      TextOfFirst(lead, statements);
      assert [st] + statements[1..] == statements;
      FirstIsClosed(lead, st, "\n" + rest, statements[1..]);
      assert Blank("\n") by { Space(); }
      SplitBackIsParted("\n", statements[1..]);
    }
  }

  lemma TextOfFirst(lead: string, statements: seq<string>)
    requires statements != []
    ensures lead + StatementText(statements)
            == lead + statements[0] + (";" + ("\n" + StatementText(statements[1..])))
  {
    var rest := StatementText(statements[1..]);
    assert ";\n" == ";" + "\n";
    Regroup(";", "\n", rest);
    Regroup(lead, statements[0], ";\n" + rest);
    Regroup(statements[0], ";\n", rest);
  }

  /** A printed section splits back into its statements exactly when each of them is trimmed and
      non-empty, is free of comments and of `;` outside quotes and braces, and closes the quotes
      and braces it opens. */
  lemma SectionSplitsIff(statements: seq<string>)
    ensures TrimmedStatements(SplitSql(StatementText(statements))) == statements
            <==> forall st | st in statements :: Parted(st)
  {
    hide TrimmedStatements, SplitSql, StatementText, Parted;
    if TrimmedStatements(SplitSql(StatementText(statements))) == statements {
      assert [] + StatementText(statements) == StatementText(statements);
      SplitBackIsParted([], statements);
    }
    if forall st | st in statements :: Parted(st) { SectionSplits(statements); }
  }

  // ----- checksums -----

  /** The rollout's own checksum line gives it back exactly when it is trimmed. */
  lemma ChecksumReadsBackIff(checksum: string)
    ensures var r := ParseLine(START, "-- checksum: " + checksum);
            (r.Ok? && r.value.rollout.checksum == Some(checksum)) <==> Trimmed(checksum)
  {
    hide Trim, Find, TrimClosers, KindOf, TrimmedStatements, SplitSql;
    if Trimmed(checksum) { HeaderLines(START, checksum); }
    var line := "-- checksum: " + checksum;
    TrimIsTrimmed(Trim(line)[if |Trim(line)| >= 12 then 12 else 0..]);
  }

  /** Outside sections a line is refused exactly when it is not blank and does not begin with two
      dashes. */
  lemma OutsideIsRefusedIff(p: Parser, line: string)
    requires p.section == Nowhere
    ensures var t := Trim(line);
            ParseLine(p, line).Err? <==> t != [] && !(|t| >= 2 && t[0] == '-' && t[1] == '-')
  {
    hide Trim, TrimClosers, Find, SplitSql, TrimmedStatements;
  }

  /** An override's header line gives back its name and checksum exactly when no space and opening
      parenthesis meet in the name, and the checksum is trimmed and does not end in a closing
      parenthesis. */
  lemma HeaderReadsBackIff(p: Parser, o: OverrideFile)
    requires p.section == Nowhere && Trimmed(o.filename)
    ensures ParseLine(p, OverrideLineOf(o)) == Ok(p.(headers := p.headers + [Header(o.filename, o.checksum)]))
            <==> !Contains(" " + o.filename, " (") && Trimmed(o.checksum)
                 && (o.checksum != [] ==> o.checksum[|o.checksum| - 1] != ')')
  {
    hide Trim, Find, TrimClosers, KindOf, OverrideLineOf, HeaderRest, IsSpace, Contains;
    OverrideLineKind(o);
    HeaderKind(OverrideLineOf(o));
    NameBeforeParenthesisIff(o);
    if !Contains(" " + o.filename, " (") {
      ChecksumAfterParenthesis(o);
      ClosersTrimmedIff(o.checksum);
      var h := Header(o.filename, Trim(TrimClosers(o.checksum)));
      assert ParseLine(p, OverrideLineOf(o)) == Ok(p.(headers := p.headers + [h]));
      SameLast(p.headers, h, Header(o.filename, o.checksum));
    } else {
      HeaderNameReadsBackIff(p, o);
    }
  }

  lemma SameLast<T>(s: seq<T>, x: T, y: T)
    ensures s + [x] == s + [y] <==> x == y
  {
    assert (s + [x])[|s|] == x && (s + [y])[|s|] == y;
  }

  lemma ChecksumAfterParenthesis(o: OverrideFile)
    requires !Contains(" " + o.filename, " (")
    ensures var rest := HeaderRest(o);
            && Find(rest, " (") == Some(1 + |o.filename|)
            && TrimClosers(rest[3 + |o.filename|..]) == TrimClosers(o.checksum)
  {
    hide Find, Contains;
    FirstParenthesis(o.filename, o.checksum + ")");
    assert HeaderRest(o)[3 + |o.filename|..] == o.checksum + ")";
    assert (o.checksum + ")")[..|o.checksum|] == o.checksum;
  }

  lemma ClosersTrimmedIff(c: string)
    ensures Trim(TrimClosers(c)) == c <==> Trimmed(c) && (c != [] ==> c[|c| - 1] != ')')
  {
    hide Trim, IsSpace;
    TrimIsTrimmed(TrimClosers(c));
    ClosersShrink(c);
    if Trimmed(c) { TrimTrimmed(c); }
  }

  lemma {:induction false} ClosersShrink(c: string)
    ensures |TrimClosers(c)| <= |c|
    ensures |TrimClosers(c)| == |c| <==> TrimClosers(c) == c
    ensures TrimClosers(c) == c <==> c == [] || c[|c| - 1] != ')'
  {
    if c != [] && c[|c| - 1] == ')' { ClosersShrink(c[..|c| - 1]); }
  }
}
