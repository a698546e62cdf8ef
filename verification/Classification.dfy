/** What a raw SQL statement means to the migrator: which phase it runs in, which row counts a
    copy has to reach, and which types a set of overrides leaves behind. */
module Classification {
  import opened Text

  datatype StatementClass = Copy | Swap

  function Classify(stmt: string): StatementClass {
    var t := ToUpper(TrimStart(stmt));
    if "DROP " <= t || "DELETE " <= t || "UPDATE " <= t then Swap
    else if "ALTER TYPE " <= t && Contains(t, " NAME ") then Swap
    else if "ALTER PROPERTY " <= t && Contains(t, " TYPE ") then Swap
    else Copy
  }

  predicate IsDestructive(stmt: string) {
    Classify(stmt) == Swap
  }

  /** The keyword, in any case, stands in `t` at `i`. */
  predicate KeywordAt(t: string, keyword: string, i: nat) {
    && i + |keyword| <= |t|
    && forall k | 0 <= k < |keyword| ::
         || t[i + k] == keyword[k]
         || ('A' <= keyword[k] <= 'Z' && t[i + k] as int == keyword[k] as int + 32)
  }

  predicate NoLowerCase(s: string) {
    forall i | 0 <= i < |s| :: !('a' <= s[i] <= 'z')
  }

  lemma UpperAtIff(t: string, keyword: string, i: nat)
    requires NoLowerCase(keyword)
    ensures At(ToUpper(t), keyword, i) <==> KeywordAt(t, keyword, i)
  {
    hide ToUpper;
    var u := ToUpper(t);
    if i + |keyword| <= |t| {
      if At(u, keyword, i) {
        forall k | 0 <= k < |keyword|
          ensures t[i + k] == keyword[k] || ('A' <= keyword[k] <= 'Z' && t[i + k] as int == keyword[k] as int + 32)
        {
          assert u[i..i + |keyword|][k] == Upper(t[i + k]);
        }
      }
      if KeywordAt(t, keyword, i) {
        forall k | 0 <= k < |keyword| ensures u[i + k] == keyword[k] { assert u[i + k] == Upper(t[i + k]); }
        assert u[i..i + |keyword|] == keyword;
      }
    }
  }

  lemma StartsIff(t: string, keyword: string)
    requires NoLowerCase(keyword)
    ensures keyword <= ToUpper(t) <==> KeywordAt(t, keyword, 0)
  {
    hide ToUpper, KeywordAt;
    UpperAtIff(t, keyword, 0);
    assert At(ToUpper(t), keyword, 0) <==> keyword <= ToUpper(t);
  }

  lemma ContainsIff(t: string, keyword: string)
    requires NoLowerCase(keyword) && keyword != []
    ensures Contains(ToUpper(t), keyword) <==> exists i: nat :: KeywordAt(t, keyword, i)
  {
    hide ToUpper, KeywordAt;
    forall i: nat ensures At(ToUpper(t), keyword, i) <==> KeywordAt(t, keyword, i) { UpperAtIff(t, keyword, i); }
    if i: nat :| KeywordAt(t, keyword, i) {
      Within(ToUpper(t), keyword, i);
    }
  }

  lemma KeywordsAreUpper()
    ensures NoLowerCase("DROP ") && NoLowerCase("DELETE ") && NoLowerCase("UPDATE ")
    ensures NoLowerCase("ALTER TYPE ") && NoLowerCase(" NAME ")
    ensures NoLowerCase("ALTER PROPERTY ") && NoLowerCase(" TYPE ")
  {
  }

  /** Exactly which statements are destructive: in any case and after any whitespace, those that
      begin with `DROP`, `DELETE` or `UPDATE`, renames of a type, and retypes of a property. */
  lemma DestructiveIff(stmt: string)
    ensures var t := TrimStart(stmt);
            IsDestructive(stmt) <==>
              || KeywordAt(t, "DROP ", 0) || KeywordAt(t, "DELETE ", 0) || KeywordAt(t, "UPDATE ", 0)
              || (KeywordAt(t, "ALTER TYPE ", 0) && exists i: nat :: KeywordAt(t, " NAME ", i))
              || (KeywordAt(t, "ALTER PROPERTY ", 0) && exists i: nat :: KeywordAt(t, " TYPE ", i))
  {
    hide ToUpper, KeywordAt, Contains, TrimStart, NoLowerCase;
    var t := TrimStart(stmt);
    KeywordsAreUpper();
    StartsIff(t, "DROP ");
    StartsIff(t, "DELETE ");
    StartsIff(t, "UPDATE ");
    StartsIff(t, "ALTER TYPE ");
    StartsIff(t, "ALTER PROPERTY ");
    ContainsIff(t, " NAME ");
    ContainsIff(t, " TYPE ");
  }

  // ----- copy verification -----

  /** A copy to verify: `target` must end up with at least the rows `source` had. */
  datatype CopyPair = CopyPair(source: string, target: string, isMove: bool)

  function IdentLength(s: string): (n: nat)
    ensures n <= |s|
  {
    if s == [] || !(IsAlphanumeric(s[0]) || s[0] == '_') then 0 else 1 + IdentLength(s[1..])
  }

  /** The ASCII part of `char::is_alphanumeric`. */
  predicate IsAlphanumeric(c: char) {
    'a' <= c <= 'z' || 'A' <= c <= 'Z' || '0' <= c <= '9'
  }

  lemma AlphanumericIff(c: char)
    ensures IsAlphanumeric(c) <==> c in LOWER || c in UPPER || c in DIGITS
  {
    LowerIff(c);
    UpperIff(c);
    DigitIff(c);
  }

  function IdentStart(s: string): Option<string> {
    var n := IdentLength(s);
    if n == 0 then None else Some(s[..n])
  }

  function IdentAfter(t: string, at: Option<nat>, skip: nat): Option<string>
    requires at.Some? ==> at.value + skip <= |t|
  {
    if at.None? then None else IdentStart(t[at.value + skip..])
  }

  function VerificationPair(stmt: string): Option<CopyPair> {
    var t := TrimStart(stmt);
    var u := ToUpper(t);
    if "INSERT INTO " <= u then
      var target := IdentStart(t[|"INSERT INTO "|..]);
      var source := IdentAfter(t, FindLast(u, " FROM "), |" FROM "|);
      if target.Some? && source.Some? then Some(CopyPair(source.value, target.value, false)) else None
    else if "MOVE VERTEX " <= u then
      var target := IdentAfter(t, Find(u, " TO TYPE:"), |" TO TYPE:"|);
      var source := IdentAfter(t, Find(u, " FROM "), |" FROM "|);
      if target.Some? && source.Some? then Some(CopyPair(source.value, target.value, true)) else None
    else None
  }

  function VerificationPairs(statements: seq<string>): seq<CopyPair> {
    if statements == [] then []
    else
      var init, last := statements[..|statements| - 1], statements[|statements| - 1];
      var p := VerificationPair(last);
      VerificationPairs(init) + (if p.Some? then [p.value] else [])
  }

  method CopyVerificationPairs(statements: seq<string>) returns (pairs: seq<CopyPair>)
    ensures pairs == VerificationPairs(statements)
  {
    pairs := [];
    for i := 0 to |statements|
      invariant pairs == VerificationPairs(statements[..i])
    {
      assert statements[..i + 1][..i] == statements[..i];
      var p := VerificationPair(statements[i]);
      if p.Some? { pairs := pairs + [p.value]; }
    }
    assert statements[..|statements|] == statements;
  }

  // ----- ownership -----

  predicate Same(word: string, keyword: string) {
    ToUpper(word) == keyword
  }

  function TrimSemicolons(s: string): string {
    if s != [] && s[|s| - 1] == ';' then TrimSemicolons(s[..|s| - 1]) else s
  }

  /** The name after `TYPE`, where `IF NOT EXISTS` may stand in between. */
  function NameAfterType(w: seq<string>): Option<string> {
    if w == [] then None
    else if Same(w[0], "IF") then Some(TrimSemicolons(if |w| > 3 then w[3] else w[0]))
    else Some(TrimSemicolons(w[0]))
  }

  function CreatedTypeName(stmt: string): Option<string> {
    var w := Words(stmt);
    if |w| < 3 || !Same(w[0], "CREATE") then None
    else if ToUpper(w[1]) in {"DOCUMENT", "VERTEX", "EDGE", "TIMESERIES"} && Same(w[2], "TYPE") then NameAfterType(w[3..])
    else if Same(w[1], "TYPE") then NameAfterType(w[2..])
    else None
  }

  function DroppedTypeName(stmt: string): Option<string> {
    var w := Words(stmt);
    if |w| < 2 || !Same(w[0], "DROP") then None
    else
      var v := if Same(w[1], "TIMESERIES") then w[2..] else w[1..];
      if |v| < 2 || !Same(v[0], "TYPE") then None
      else if Same(v[1], "IF") then (if |v| < 4 then None else Some(TrimSemicolons(v[3])))
      else Some(TrimSemicolons(v[1]))
  }

  function RenamedTypeName(stmt: string): Option<(string, string)> {
    var w := Words(stmt);
    if |w| < 5 || !Same(w[0], "ALTER") || !Same(w[1], "TYPE") || !Same(w[3], "NAME") then None
    else Some((w[2], TrimSemicolons(w[4])))
  }

  predicate Creates(stmt: string, name: string) {
    || CreatedTypeName(stmt) == Some(name)
    || (RenamedTypeName(stmt).Some? && RenamedTypeName(stmt).value.1 == name)
  }

  predicate Disposes(stmt: string, name: string) {
    || DroppedTypeName(stmt) == Some(name)
    || (RenamedTypeName(stmt).Some? && RenamedTypeName(stmt).value.0 == name)
  }

  /** The words of a statement, in upper case. */
  function Keywords(w: seq<string>): (r: seq<string>)
    ensures |r| == |w| && forall i | 0 <= i < |r| :: r[i] == ToUpper(w[i])
  {
    seq(|w|, i requires 0 <= i < |w| => ToUpper(w[i]))
  }

  /** A name as a statement may end with it. */
  predicate NamedBy(word: string, name: string) {
    && (word == name || word == name + ";") && ToUpper(word) != "IF"
    && (name != [] ==> name[|name| - 1] != ';')
  }

  lemma NameTrims(word: string, name: string)
    requires NamedBy(word, name)
    ensures TrimSemicolons(word) == name
  {
    hide ToUpper;
    if word != name { assert word[..|word| - 1] == name; }
  }

  /** A type creation names its type after `TYPE`, whatever kind stands before it and whether or
      not `IF NOT EXISTS` stands in between. */
  lemma CreationNames(stmt: string, kind: seq<string>, guard: seq<string>, word: string, name: string)
    requires kind in {[], ["DOCUMENT"], ["VERTEX"], ["EDGE"], ["TIMESERIES"]}
    requires guard in {[], ["IF", "NOT", "EXISTS"]} && NamedBy(word, name)
    requires var w := Words(stmt);
             var n := 2 + |kind| + |guard|;
             n < |w| && Keywords(w[..n]) == ["CREATE"] + kind + ["TYPE"] + guard && w[n] == word
    ensures CreatedTypeName(stmt) == Some(name)
  {
    hide Words, ToUpper;
    var w := Words(stmt);
    var n := 2 + |kind| + |guard|;
    NameTrims(word, name);
    forall i | 0 <= i < n ensures ToUpper(w[i]) == (["CREATE"] + kind + ["TYPE"] + guard)[i] {
      assert w[..n][i] == w[i] && Keywords(w[..n])[i] == ToUpper(w[..n][i]);
    }
    assert w[2 + |kind|..][|guard|] == word;
    if guard != [] { assert ToUpper(w[2 + |kind|]) == "IF"; }
  }

  /** A type drop names its type after `TYPE`, with or without `TIMESERIES` before it and
      `IF EXISTS` after it. */
  lemma DropNames(stmt: string, kind: seq<string>, guard: seq<string>, word: string, name: string)
    requires kind in {[], ["TIMESERIES"]} && guard in {[], ["IF", "EXISTS"]} && NamedBy(word, name)
    requires var w := Words(stmt);
             var n := 2 + |kind| + |guard|;
             n < |w| && Keywords(w[..n]) == ["DROP"] + kind + ["TYPE"] + guard && w[n] == word
    ensures DroppedTypeName(stmt) == Some(name)
  {
    hide Words, ToUpper;
    var w := Words(stmt);
    var n := 2 + |kind| + |guard|;
    NameTrims(word, name);
    forall i | 0 <= i < n ensures ToUpper(w[i]) == (["DROP"] + kind + ["TYPE"] + guard)[i] {
      assert w[..n][i] == w[i] && Keywords(w[..n])[i] == ToUpper(w[..n][i]);
    }
    var v := if kind != [] then w[2..] else w[1..];
    assert v[1 + |guard|] == word;
  }

  /** A rename names the old type after `TYPE` and the new one after `NAME`. */
  lemma RenameNames(stmt: string, old_: string, word: string, name: string)
    requires NamedBy(word, name)
    requires var w := Words(stmt);
             && |w| >= 5 && ToUpper(w[0]) == "ALTER" && ToUpper(w[1]) == "TYPE" && ToUpper(w[3]) == "NAME"
             && w[2] == old_ && w[4] == word
    ensures RenamedTypeName(stmt) == Some((old_, name))
  {
    hide Words, ToUpper;
    NameTrims(word, name);
  }

  /** The types a run of statements leaves owned, each statement netted in order. */
  method OwnedTypes(lists: seq<seq<string>>) returns (owned: set<string>)
    ensures forall name :: name in owned <==> LeftBehind(Flatten(lists), name)
  {
    hide CreatedTypeName, DroppedTypeName, RenamedTypeName;
    owned := {};
    for i := 0 to |lists|
      invariant forall name :: name in owned <==> LeftBehind(Flatten(lists[..i]), name)
    {
      assert lists[..i + 1][..i] == lists[..i];
      var list := lists[i];
      ghost var before := Flatten(lists[..i]);
      assert before + list[..0] == before;
      for j := 0 to |list|
        invariant forall name :: name in owned <==> LeftBehind(before + list[..j], name)
      {
        var s := list[j];
        assert before + list[..j + 1] == (before + list[..j]) + [s];
        forall name ensures LeftBehind(before + list[..j + 1], name) <==>
            (Creates(s, name) || (LeftBehind(before + list[..j], name) && !Disposes(s, name)))
        {
          LeftBehindSnoc(before + list[..j], s, name);
        }
        var c := CreatedTypeName(s);
        if c.Some? { owned := owned + {c.value}; }
        var d := DroppedTypeName(s);
        if d.Some? { OneRole(s); owned := owned - {d.value}; }
        var r := RenamedTypeName(s);
        if r.Some? { owned := owned - {r.value.0} + {r.value.1}; }
        OneRole(s);
      }
      assert list[..|list|] == list;
    }
    assert lists[..|lists|] == lists;
  }

  function Flatten(lists: seq<seq<string>>): seq<string> {
    if lists == [] then [] else Flatten(lists[..|lists| - 1]) + lists[|lists| - 1]
  }

  /** `name` is created (or renamed into being) at some point and neither dropped nor renamed
      away afterwards. */
  ghost predicate LeftBehind(statements: seq<string>, name: string) {
    exists i | 0 <= i < |statements| ::
      && Creates(statements[i], name)
      && forall j | i < j < |statements| :: !Disposes(statements[j], name) || Creates(statements[j], name)
  }

  /** A statement has at most one of the three roles, since each begins with its own verb. */
  lemma OneRole(s: string)
    ensures CreatedTypeName(s).Some? ==> DroppedTypeName(s).None? && RenamedTypeName(s).None?
    ensures DroppedTypeName(s).Some? ==> RenamedTypeName(s).None?
  {
    assert "CREATE"[0] != "DROP"[0] && "DROP"[0] != "ALTER"[0] && "CREATE"[0] != "ALTER"[0];
  }

  lemma LeftBehindSnoc(before: seq<string>, s: string, name: string)
    ensures LeftBehind(before + [s], name) <==>
            Creates(s, name) || (LeftBehind(before, name) && !Disposes(s, name))
  {
    hide Creates, Disposes;
    var all := before + [s];
    assert all[|before|] == s;
    assert forall j | 0 <= j < |before| :: before[j] == all[j];
    if LeftBehind(before, name) && !Disposes(s, name) {
      var i :| 0 <= i < |before| && Creates(before[i], name) &&
        forall j | i < j < |before| :: !Disposes(before[j], name) || Creates(before[j], name);
      assert Creates(all[i], name);
    }
    if LeftBehind(all, name) && !Creates(s, name) {
      var i :| 0 <= i < |all| && Creates(all[i], name) &&
        forall j | i < j < |all| :: !Disposes(all[j], name) || Creates(all[j], name);
      assert Creates(before[i], name);
    }
  }
}
