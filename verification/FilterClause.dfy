/** Dynamic WHERE clauses: every operator emits its fragment and binds its parameter under a
    name of its own. */
module FilterClauses {
  import opened Text

  // ----- parameter names -----

  function Suffixed(base: string, n: nat): string {
    base + "_" + Digits(n)
  }

  lemma SuffixesDiffer(base: string, m: nat, n: nat)
    requires m != n
    ensures Suffixed(base, m) != Suffixed(base, n)
  {
    DigitsAreInjective(m, n);
    assert Suffixed(base, m)[|base| + 1..] == Digits(m) && Suffixed(base, n)[|base| + 1..] == Digits(n);
  }

  /** The used names that candidates numbered from `n` on can still meet. */
  ghost function Ahead(used: set<string>, base: string, n: nat): set<string> {
    set k | k in used && forall i | 2 <= i < n :: k != Suffixed(base, i)
  }

  /** Each taken candidate leaves fewer names ahead: the search ends because the names are finite
      and candidates never repeat. */
  lemma FewerAhead(used: set<string>, base: string, n: nat)
    requires n >= 2 && Suffixed(base, n) in used
    ensures |Ahead(used, base, n + 1)| < |Ahead(used, base, n)|
  {
    var c := Suffixed(base, n);
    forall i | 2 <= i < n ensures c != Suffixed(base, i) { SuffixesDiffer(base, n, i); }
    assert c in Ahead(used, base, n) && c !in Ahead(used, base, n + 1);
    SmallerSet(Ahead(used, base, n + 1), Ahead(used, base, n));
  }

  lemma SmallerSet(a: set<string>, b: set<string>)
    requires a < b
    ensures |a| < |b|
  {
    assert b == a + (b - a);
    assert |b| == |a| + |b - a|;
  }

  function FirstFree(used: set<string>, base: string, n: nat): (r: nat)
    requires n >= 2
    ensures r >= n && Suffixed(base, r) !in used
    ensures forall i | n <= i < r :: Suffixed(base, i) in used
    decreases |Ahead(used, base, n)|
  {
    if Suffixed(base, n) !in used then n
    else
      FewerAhead(used, base, n);
      FirstFree(used, base, n + 1)
  }

  /** The base if it is free, otherwise the first free `base_n` from 2 on. */
  function ParamName(used: set<string>, base: string): (r: string)
    ensures r !in used && base <= r
  {
    if base !in used then base else Suffixed(base, FirstFree(used, base, 2))
  }

  // ----- clauses -----

  datatype Operator =
    | Eq | Ne | Lt | Lte | Gt | Gte
    | InList | NotIn | Has | ContainsAll | ContainsAny | NotContainsAny
    | Like | ILike

  function Symbol(op: Operator): string {
    match op
    case Eq => "="
    case Ne => "<>"
    case Lt => "<"
    case Lte => "<="
    case Gt => ">"
    case Gte => ">="
    case InList => "IN"
    case NotIn => "NOT IN"
    case Has => "CONTAINS"
    case ContainsAll => "CONTAINSALL"
    case ContainsAny => "CONTAINSANY"
    case NotContainsAny => "CONTAINSANY"
    case Like => "LIKE"
    case ILike => "ILIKE"
  }

  function Base(col: string, op: Operator): string {
    match op
    case Eq => col
    case Ne => col + "__ne"
    case Lt => col + "__lt"
    case Lte => col + "__lte"
    case Gt => col + "__gt"
    case Gte => col + "__gte"
    case InList => col + "__in"
    case NotIn => col + "__nin"
    case Has => col + "__has"
    case ContainsAll => col + "__all"
    case ContainsAny => col + "__any"
    case NotContainsAny => col + "__any"
    case Like => col + "__like"
    case ILike => col + "__ilike"
  }

  /** An operator fragment and the placeholders it refers to. */
  datatype Fragment =
    | Compare(col: string, op: Operator, name: string)
    | Range(col: string, from: string, to: string)
    | NullTest(col: string, isNull: bool)

  function Render(f: Fragment): string {
    match f
    case Compare(col, op, name) =>
      var text := col + " " + Symbol(op) + " :" + name;
      if op.NotContainsAny? then "NOT (" + text + ")" else text
    case Range(col, from, to) => col + " BETWEEN :" + from + " AND :" + to
    case NullTest(col, isNull) => col + (if isNull then " IS NULL" else " IS NOT NULL")
  }

  function Names(f: Fragment): seq<string> {
    match f
    case Compare(_, _, name) => [name]
    case Range(_, from, to) => [from, to]
    case NullTest(_, _) => []
  }

  /** The placeholders of a clause, in order. */
  function Placeholders(frags: seq<Fragment>): seq<string> {
    if frags == [] then [] else Placeholders(frags[..|frags| - 1]) + Names(frags[|frags| - 1])
  }

  datatype Clause<V> = Clause(frags: seq<Fragment>, params: map<string, V>)

  /** A builder call. */
  datatype Call<V> =
    | Bind(name: string, value: V)
    | Where(col: string, op: Operator, value: V)
    | Between(col: string, low: V, high: V)
    | Null(col: string, isNull: bool)

  function Apply<V>(c: Clause<V>, call: Call<V>): Clause<V> {
    match call
    case Bind(name, v) => c.(params := c.params[name := v])
    case Where(col, op, v) =>
      var name := ParamName(c.params.Keys, Base(col, op));
      Clause(c.frags + [Compare(col, op, name)], c.params[name := v])
    case Between(col, low, high) =>
      var from, to := ParamName(c.params.Keys, col + "__from"), ParamName(c.params.Keys, col + "__to");
      Clause(c.frags + [Range(col, from, to)], c.params[from := low][to := high])
    case Null(col, isNull) => c.(frags := c.frags + [NullTest(col, isNull)])
  }

  function Built<V>(calls: seq<Call<V>>): Clause<V> {
    if calls == [] then Clause([], map[]) else Apply(Built(calls[..|calls| - 1]), calls[|calls| - 1])
  }

  class FilterClause<V> {
    var frags: seq<Fragment>
    var params: map<string, V>

    function State(): Clause<V>
      reads this
    {
      Clause(frags, params)
    }

    constructor ()
      ensures State() == Built([])
    {
      frags, params := [], map[];
    }

    method FreshName(base: string) returns (name: string)
      ensures name == ParamName(params.Keys, base)
    {
      if base !in params { return base; }
      var n := 2;
      while Suffixed(base, n) in params
        invariant n >= 2 && FirstFree(params.Keys, base, 2) == FirstFree(params.Keys, base, n)
        decreases |Ahead(params.Keys, base, n)|
      {
        FewerAhead(params.Keys, base, n);
        n := n + 1;
      }
      return Suffixed(base, n);
    }

    method AddBinding(name: string, value: V)
      modifies this
      ensures State() == Apply(old(State()), Bind(name, value))
    {
      params := params[name := value];
    }

    method AddOperator(col: string, op: Operator, value: V)
      modifies this
      ensures State() == Apply(old(State()), Where(col, op, value))
    {
      var name := FreshName(Base(col, op));
      frags := frags + [Compare(col, op, name)];
      params := params[name := value];
    }

    method AddBetween(col: string, low: V, high: V)
      modifies this
      ensures State() == Apply(old(State()), Between(col, low, high))
    {
      var from := FreshName(col + "__from");
      var to := FreshName(col + "__to");
      frags := frags + [Range(col, from, to)];
      params := params[from := low];
      params := params[to := high];
    }

    method AddNullTest(col: string, isNull: bool)
      modifies this
      ensures State() == Apply(old(State()), Null(col, isNull))
    {
      frags := frags + [NullTest(col, isNull)];
    }

    method WhereSql() returns (sql: string)
      ensures sql == if frags == [] then "" else "WHERE " + Joined(frags)
    {
      if frags == [] { return ""; }
      sql := Render(frags[0]);
      for i := 1 to |frags|
        invariant sql == Joined(frags[..i])
      {
        assert frags[..i + 1][..i] == frags[..i];
        sql := sql + " AND " + Render(frags[i]);
      }
      assert frags[..|frags|] == frags;
      sql := "WHERE " + sql;
    }
  }

  function Joined(frags: seq<Fragment>): string {
    if frags == [] then ""
    else if |frags| == 1 then Render(frags[0])
    else Joined(frags[..|frags| - 1]) + " AND " + Render(frags[|frags| - 1])
  }

  /** A rendered fragment refers to each of its placeholders. */
  lemma RenderMentions(f: Fragment, name: string)
    requires name in Names(f)
    ensures Contains(Render(f), ":" + name)
  {
    hide Contains, Render;
    match f
    case Compare(col, op, n) => CompareMentions(col, op, n);
    case Range(col, from, to) => RangeMentions(col, from, to);
  }

  lemma CompareMentions(col: string, op: Operator, name: string)
    ensures Contains(Render(Compare(col, op, name)), ":" + name)
  {
    hide Contains, Symbol;
    var head := col + " " + Symbol(op);
    SpaceColon(head, name);
    if op.NotContainsAny? {
      Regroup("NOT (", head + " ", ":" + name);
      ContainsMiddle("NOT (" + (head + " "), ":" + name, ")");
    } else {
      ContainsMiddle(head + " ", ":" + name, "");
      assert Render(Compare(col, op, name)) == head + " " + (":" + name) + "";
    }
  }

  lemma SpaceColon(head: string, name: string)
    ensures head + " :" + name == head + " " + (":" + name)
  {
    hide *;
    assert " :" == " " + ":";
    Regroup(head, " ", ":");
    Regroup(head + " ", ":", name);
  }

  lemma RangeMentions(col: string, from: string, to: string)
    ensures Contains(Render(Range(col, from, to)), ":" + from) && Contains(Render(Range(col, from, to)), ":" + to)
  {
    hide Contains;
    ContainsMiddle(col + " BETWEEN ", ":" + from, " AND :" + to);
    ContainsMiddle(col + " BETWEEN :" + from + " AND ", ":" + to, "");
    assert Render(Range(col, from, to)) == (col + " BETWEEN ") + (":" + from) + (" AND :" + to);
    assert Render(Range(col, from, to)) == (col + " BETWEEN :" + from + " AND ") + (":" + to) + "";
  }

  /** A comparison as SQL spells it, on integers: it holds below, at or above the operand as its
      text has the sign for it. */
  predicate SqlCompares(symbol: string, x: int, operand: int) {
    || ('<' in symbol && x < operand)
    || ('=' in symbol && x == operand)
    || ('>' in symbol && x > operand)
  }

  /** Each comparing operator is rendered as the comparison it is called. */
  lemma ComparisonsRead(x: int, operand: int)
    ensures SqlCompares(Symbol(Eq), x, operand) <==> x == operand
    ensures SqlCompares(Symbol(Ne), x, operand) <==> x != operand
    ensures SqlCompares(Symbol(Lt), x, operand) <==> x < operand
    ensures SqlCompares(Symbol(Lte), x, operand) <==> x <= operand
    ensures SqlCompares(Symbol(Gt), x, operand) <==> x > operand
    ensures SqlCompares(Symbol(Gte), x, operand) <==> x >= operand
  {
  }

  /** No two operators are rendered alike but for the two that differ in a `NOT`. */
  lemma SymbolsDiffer(a: Operator, b: Operator)
    ensures Symbol(a) == Symbol(b) <==> a == b || (a in {ContainsAny, NotContainsAny} && b in {ContainsAny, NotContainsAny})
  {
    SymbolMarks(a);
    SymbolMarks(b);
  }

  /** What tells each symbol from the others: its length and two of its characters. */
  lemma SymbolMarks(op: Operator)
    ensures var s := Symbol(op);
            s != [] && (|s|, s[0], s[|s| - 1], 'A' in s && 'Y' in s) ==
            match op
            case Eq => (1, '=', '=', false)
            case Ne => (2, '<', '>', false)
            case Lt => (1, '<', '<', false)
            case Lte => (2, '<', '=', false)
            case Gt => (1, '>', '>', false)
            case Gte => (2, '>', '=', false)
            case InList => (2, 'I', 'N', false)
            case NotIn => (6, 'N', 'N', false)
            case Has => (8, 'C', 'S', false)
            case ContainsAll => (11, 'C', 'L', false)
            case ContainsAny => (11, 'C', 'Y', true)
            case NotContainsAny => (11, 'C', 'Y', true)
            case Like => (4, 'L', 'E', false)
            case ILike => (5, 'I', 'E', false)
  {
  }

  /** What each operator appends to an empty clause, as its documentation gives it. */
  lemma FirstTexts<V>(col: string, v: V)
    ensures SqlOf(Where(col, Eq, v)) == col + " = :" + col
    ensures SqlOf(Where(col, Ne, v)) == col + " <> :" + col + "__ne"
    ensures SqlOf(Where(col, Lt, v)) == col + " < :" + col + "__lt"
    ensures SqlOf(Where(col, Lte, v)) == col + " <= :" + col + "__lte"
    ensures SqlOf(Where(col, Gt, v)) == col + " > :" + col + "__gt"
    ensures SqlOf(Where(col, Gte, v)) == col + " >= :" + col + "__gte"
  {
    hide Symbol;
    FirstText(col, Eq, v);
    FirstText(col, Ne, v);
    FirstText(col, Lt, v);
    FirstText(col, Lte, v);
    FirstText(col, Gt, v);
    FirstText(col, Gte, v);
    ComparisonTexts(col);
  }

  /** The operators on collections and patterns, likewise. */
  lemma CollectionTexts<V>(col: string, v: V)
    ensures SqlOf(Where(col, InList, v)) == col + " IN :" + col + "__in"
    ensures SqlOf(Where(col, NotIn, v)) == col + " NOT IN :" + col + "__nin"
    ensures SqlOf(Where(col, Has, v)) == col + " CONTAINS :" + col + "__has"
    ensures SqlOf(Where(col, ContainsAll, v)) == col + " CONTAINSALL :" + col + "__all"
    ensures SqlOf(Where(col, ContainsAny, v)) == col + " CONTAINSANY :" + col + "__any"
    ensures SqlOf(Where(col, NotContainsAny, v)) == "NOT (" + col + " CONTAINSANY :" + col + "__any)"
    ensures SqlOf(Where(col, Like, v)) == col + " LIKE :" + col + "__like"
    ensures SqlOf(Where(col, ILike, v)) == col + " ILIKE :" + col + "__ilike"
  {
    hide Render, SqlOf;
    FirstText(col, InList, v);
    FirstText(col, NotIn, v);
    FirstText(col, Has, v);
    FirstText(col, ContainsAll, v);
    FirstText(col, ContainsAny, v);
    FirstText(col, NotContainsAny, v);
    FirstText(col, Like, v);
    FirstText(col, ILike, v);
    MemberTexts(col);
    ContainerTexts(col);
    PatternTexts(col);
  }

  lemma MemberTexts(col: string)
    ensures Render(Compare(col, InList, Base(col, InList))) == col + " IN :" + col + "__in"
    ensures Render(Compare(col, NotIn, Base(col, NotIn))) == col + " NOT IN :" + col + "__nin"
    ensures Render(Compare(col, Has, Base(col, Has))) == col + " CONTAINS :" + col + "__has"
  {
  }

  lemma ContainerTexts(col: string)
    ensures Render(Compare(col, ContainsAll, Base(col, ContainsAll))) == col + " CONTAINSALL :" + col + "__all"
    ensures Render(Compare(col, ContainsAny, Base(col, ContainsAny))) == col + " CONTAINSANY :" + col + "__any"
    ensures Render(Compare(col, NotContainsAny, Base(col, NotContainsAny)))
            == "NOT (" + col + " CONTAINSANY :" + col + "__any)"
  {
    hide Render;
    AllText(col);
    AnyText(col);
    NotAnyText(col);
  }

  lemma AllText(col: string)
    ensures Render(Compare(col, ContainsAll, Base(col, ContainsAll))) == col + " CONTAINSALL :" + col + "__all"
  {
  }

  lemma AnyText(col: string)
    ensures Render(Compare(col, ContainsAny, Base(col, ContainsAny))) == col + " CONTAINSANY :" + col + "__any"
  {
  }

  lemma NotAnyText(col: string)
    ensures Render(Compare(col, NotContainsAny, Base(col, NotContainsAny)))
            == "NOT (" + col + " CONTAINSANY :" + col + "__any)"
  {
    AnyText(col);
    var text := Render(Compare(col, ContainsAny, Base(col, ContainsAny)));
    assert Render(Compare(col, NotContainsAny, Base(col, NotContainsAny))) == "NOT (" + text + ")";
    hide Render, Base;
    assert "NOT (" + text + ")" == "NOT (" + col + " CONTAINSANY :" + col + ("__any" + ")");
  }

  lemma PatternTexts(col: string)
    ensures Render(Compare(col, Like, Base(col, Like))) == col + " LIKE :" + col + "__like"
    ensures Render(Compare(col, ILike, Base(col, ILike))) == col + " ILIKE :" + col + "__ilike"
  {
  }

  /** Ranges and null tests, and how two fragments join. */
  lemma OtherTexts<V>(col: string, low: V, high: V)
    ensures SqlOf(Between(col, low, high)) == col + " BETWEEN :" + col + "__from AND :" + col + "__to"
    ensures SqlOf<V>(Null(col, true)) == col + " IS NULL"
    ensures SqlOf<V>(Null(col, false)) == col + " IS NOT NULL"
  {
    hide Render;
    RangeText(col, low, high);
    NullText<V>(col, true);
    NullText<V>(col, false);
    RenderedTexts(col);
  }

  lemma RangeText<V>(col: string, low: V, high: V)
    ensures SqlOf(Between(col, low, high)) == Render(Range(col, col + "__from", col + "__to"))
  {
    hide Render;
    var call := Between(col, low, high);
    assert [call][..0] == [] && Built<V>([]) == Clause([], map[]);
    assert Built([call]).frags == [Range(col, col + "__from", col + "__to")];
  }

  lemma NullText<V>(col: string, isNull: bool)
    ensures SqlOf<V>(Null(col, isNull)) == Render(NullTest(col, isNull))
  {
    hide Render;
    var call: Call<V> := Null(col, isNull);
    assert [call][..0] == [] && Built<V>([]) == Clause([], map[]);
    assert Built([call]).frags == [NullTest(col, isNull)];
  }

  lemma RenderedTexts(col: string)
    ensures Render(Range(col, col + "__from", col + "__to")) == col + " BETWEEN :" + col + "__from AND :" + col + "__to"
    ensures Render(NullTest(col, true)) == col + " IS NULL" && Render(NullTest(col, false)) == col + " IS NOT NULL"
  {
  }

  /** One more fragment is joined by `AND`; a lone one stands by itself. */
  lemma JoinedByAnd(frags: seq<Fragment>, f: Fragment)
    ensures Joined(frags + [f]) == if frags == [] then Render(f) else Joined(frags) + " AND " + Render(f)
  {
    hide Render;
    assert (frags + [f])[..|frags|] == frags;
    if frags == [] { assert frags + [f] == [f]; }
  }

  /** A name that is taken is numbered from 2 on. */
  lemma TakenNames(used: set<string>, base: string)
    ensures base !in used ==> ParamName(used, base) == base
    ensures base in used && base + "_2" !in used ==> ParamName(used, base) == base + "_2"
    ensures base in used && base + "_2" in used && base + "_3" !in used ==> ParamName(used, base) == base + "_3"
  {
    assert Suffixed(base, 2) == base + "_2" && Suffixed(base, 3) == base + "_3" by {
      assert Digits(2) == "2" && Digits(3) == "3";
    }
    hide Digits, Suffixed;
    if base in used && base + "_2" in used {
      assert FirstFree(used, base, 2) == FirstFree(used, base, 3) by { FewerAhead(used, base, 2); }
    }
  }

  lemma ComparisonTexts(col: string)
    ensures col + " " + Symbol(Eq) + " :" + col == col + " = :" + col
    ensures col + " " + Symbol(Ne) + " :" + (col + "__ne") == col + " <> :" + col + "__ne"
    ensures col + " " + Symbol(Lt) + " :" + (col + "__lt") == col + " < :" + col + "__lt"
    ensures col + " " + Symbol(Lte) + " :" + (col + "__lte") == col + " <= :" + col + "__lte"
    ensures col + " " + Symbol(Gt) + " :" + (col + "__gt") == col + " > :" + col + "__gt"
    ensures col + " " + Symbol(Gte) + " :" + (col + "__gte") == col + " >= :" + col + "__gte"
  {
  }

  /** The text of a clause made by one call. */
  function SqlOf<V>(call: Call<V>): string {
    Joined(Built([call]).frags)
  }

  lemma FirstText<V>(col: string, op: Operator, v: V)
    ensures SqlOf(Where(col, op, v)) == Render(Compare(col, op, Base(col, op)))
  {
    hide Render, Base;
    var call := Where(col, op, v);
    assert [call][..0] == [] && Built<V>([]) == Clause([], map[]);
    assert Built([call]).frags == [Compare(col, op, Base(col, op))];
  }

  // ----- meaning -----

  /** How one row answers an operator on a column, given the operand values. */
  type Answers<!V> = (string, Operator, seq<V>) -> bool

  /** An operator's condition on one operand. `NOT (… CONTAINSANY …)` is the negation of the
      other, under the same operand; all other operators are left uninterpreted. */
  predicate Meets<V>(row: Answers<V>, col: string, op: Operator, v: V) {
    if op.NotContainsAny? then !row(col, ContainsAny, [v]) else row(col, op, [v])
  }

  predicate Holds<V>(row: Answers<V>, f: Fragment, params: map<string, V>)
    requires forall n | n in Names(f) :: n in params
  {
    match f
    case Compare(col, op, name) => Meets(row, col, op, params[name])
    case Range(col, from, to) => row(col, Gte, [params[from]]) && row(col, Lte, [params[to]])
    case NullTest(col, isNull) => row(col, Eq, []) == isNull
  }

  predicate AllBound<V>(frags: seq<Fragment>, params: map<string, V>) {
    forall n | n in Placeholders(frags) :: n in params
  }

  predicate Selects<V>(row: Answers<V>, frags: seq<Fragment>, params: map<string, V>)
    requires AllBound(frags, params)
  {
    frags == [] || (Selects(row, frags[..|frags| - 1], params) && Holds(row, frags[|frags| - 1], params))
  }

  /** What the caller asked for with one call. */
  predicate Wanted<V>(row: Answers<V>, call: Call<V>) {
    match call
    case Bind(_, _) => true
    case Where(col, op, v) => Meets(row, col, op, v)
    case Between(col, low, high) => row(col, Gte, [low]) && row(col, Lte, [high])
    case Null(col, isNull) => row(col, Eq, []) == isNull
  }

  predicate AllWanted<V>(row: Answers<V>, calls: seq<Call<V>>) {
    calls == [] || (AllWanted(row, calls[..|calls| - 1]) && Wanted(row, calls[|calls| - 1]))
  }

  /** No `bind` gives a placeholder already in the clause another value. */
  ghost predicate BindsApart<V>(calls: seq<Call<V>>) {
    calls == [] ||
      var prior, last := calls[..|calls| - 1], calls[|calls| - 1];
      && BindsApart(prior)
      && (last.Bind? && last.name in Placeholders(Built(prior).frags) ==>
            last.name in Built(prior).params && Built(prior).params[last.name] == last.value)
  }

  predicate NoRepeats(names: seq<string>) {
    forall i, j | 0 <= i < j < |names| :: names[i] != names[j]
  }

  lemma FromIsNotTo(used: set<string>, col: string)
    ensures ParamName(used, col + "__from") != ParamName(used, col + "__to")
  {
    hide ParamName;
    var from, to := ParamName(used, col + "__from"), ParamName(used, col + "__to");
    assert from[|col| + 2] == (col + "__from")[|col| + 2] == 'f';
    assert to[|col| + 2] == (col + "__to")[|col| + 2] == 't';
  }

  lemma {:induction false} SelectsFramed<V>(row: Answers<V>, frags: seq<Fragment>, params: map<string, V>,
      grown: map<string, V>)
    requires AllBound(frags, params)
    requires forall n | n in Placeholders(frags) :: n in grown && grown[n] == params[n]
    ensures AllBound(frags, grown) && Selects(row, frags, grown) == Selects(row, frags, params)
  {
    if frags != [] {
      SelectsFramed(row, frags[..|frags| - 1], params, grown);
    }
  }

  /** One more fragment, over placeholders bound afresh. */
  lemma Appended<V>(row: Answers<V>, c: Clause<V>, f: Fragment, params: map<string, V>)
    requires AllBound(c.frags, c.params) && NoRepeats(Placeholders(c.frags)) && NoRepeats(Names(f))
    requires forall n | n in c.params :: n in params && n !in Names(f) && params[n] == c.params[n]
    requires forall n | n in Names(f) :: n in params
    ensures var frags := c.frags + [f];
            && AllBound(frags, params) && NoRepeats(Placeholders(frags))
            && Selects(row, frags, params) == (Selects(row, c.frags, c.params) && Holds(row, f, params))
  {
    hide Holds, Names;
    var frags := c.frags + [f];
    assert frags[..|frags| - 1] == c.frags;
    assert Placeholders(frags) == Placeholders(c.frags) + Names(f);
    SelectsFramed(row, c.frags, c.params, params);
    NoRepeatsConcat(Placeholders(c.frags), Names(f));
  }

  lemma NoRepeatsConcat(a: seq<string>, b: seq<string>)
    requires NoRepeats(a) && NoRepeats(b) && forall n | n in a :: n !in b
    ensures NoRepeats(a + b)
  {
    forall i, j | 0 <= i < j < |a + b| ensures (a + b)[i] != (a + b)[j] {
      if i < |a| && j >= |a| { assert (a + b)[i] in a && (a + b)[j] in b; }
    }
  }

  /** After any sequence of operator calls and binds that stay off the generated names: every
      placeholder is bound, no two are the same, and the AND of the fragments selects exactly
      the rows that satisfy every call with the values it was given. */
  lemma {:induction false} BuiltMeansWanted<V>(row: Answers<V>, calls: seq<Call<V>>)
    requires BindsApart(calls)
    ensures var c := Built(calls);
            && AllBound(c.frags, c.params) && NoRepeats(Placeholders(c.frags))
            && Selects(row, c.frags, c.params) == AllWanted(row, calls)
  {
    hide Apply, Placeholders, Selects, Wanted, NoRepeats, AllBound;
    if calls == [] {
      NothingSelectsAll(row);
    } else {
      var prior, last := calls[..|calls| - 1], calls[|calls| - 1];
      BuiltMeansWanted(row, prior);
      CallMeansWanted(row, Built(prior), last);
    }
  }

  lemma NothingSelectsAll<V>(row: Answers<V>)
    ensures AllBound<V>([], map[]) && NoRepeats(Placeholders([])) && Selects(row, [], map[])
  {
  }

  /** What one call adds to what a clause selects. */
  lemma CallMeansWanted<V>(row: Answers<V>, c: Clause<V>, last: Call<V>)
    requires AllBound(c.frags, c.params) && NoRepeats(Placeholders(c.frags))
    requires last.Bind? && last.name in Placeholders(c.frags) ==> c.params[last.name] == last.value
    ensures var d := Apply(c, last);
            && AllBound(d.frags, d.params) && NoRepeats(Placeholders(d.frags))
            && Selects(row, d.frags, d.params) == (Selects(row, c.frags, c.params) && Wanted(row, last))
  {
    hide ParamName, Base, Selects, NoRepeats, Placeholders;
    var d := Apply(c, last);
    match last
    case Bind(name, v) => SelectsFramed(row, c.frags, c.params, d.params);
    case Where(col, op, v) =>
      var f := Compare(col, op, ParamName(c.params.Keys, Base(col, op)));
      NamesApart(f);
      Appended(row, c, f, d.params);
    case Between(col, low, high) =>
      var f := Range(col, ParamName(c.params.Keys, col + "__from"), ParamName(c.params.Keys, col + "__to"));
      FromIsNotTo(c.params.Keys, col);
      NamesApart(f);
      Appended(row, c, f, d.params);
    case Null(col, isNull) =>
      NamesApart(NullTest(col, isNull));
      Appended(row, c, NullTest(col, isNull), d.params);
  }

  lemma NamesApart(f: Fragment)
    ensures (f.Range? ==> f.from != f.to) ==> NoRepeats(Names(f))
  {
  }

  // ----- exactly when a clause means what was asked -----

  /** One condition on a row: the operator on the column, with these operands, answers `want`. */
  datatype Test<V> = Test(col: string, op: Operator, vals: seq<V>, want: bool)

  function OperatorTest<V>(col: string, op: Operator, v: V): Test<V> {
    if op.NotContainsAny? then Test(col, ContainsAny, [v], false) else Test(col, op, [v], true)
  }

  ghost function FragmentTests<V>(f: Fragment, params: map<string, V>): set<Test<V>>
    requires forall n | n in Names(f) :: n in params
  {
    match f
    case Compare(col, op, name) => {OperatorTest(col, op, params[name])}
    case Range(col, from, to) => {Test(col, Gte, [params[from]], true), Test(col, Lte, [params[to]], true)}
    case NullTest(col, isNull) => {Test(col, Eq, [], isNull)}
  }

  /** What a clause tests, with the values bound to its placeholders. */
  ghost function Tests<V>(frags: seq<Fragment>, params: map<string, V>): set<Test<V>>
    requires AllBound(frags, params)
  {
    if frags == [] then {} else Tests(frags[..|frags| - 1], params) + FragmentTests(frags[|frags| - 1], params)
  }

  ghost function CallTests<V>(call: Call<V>): set<Test<V>> {
    match call
    case Bind(_, _) => {}
    case Where(col, op, v) => {OperatorTest(col, op, v)}
    case Between(col, low, high) => {Test(col, Gte, [low], true), Test(col, Lte, [high], true)}
    case Null(col, isNull) => {Test(col, Eq, [], isNull)}
  }

  /** What the calls asked for, with the values they were given. */
  ghost function Asked<V>(calls: seq<Call<V>>): set<Test<V>> {
    if calls == [] then {} else Asked(calls[..|calls| - 1]) + CallTests(calls[|calls| - 1])
  }

  predicate Passes<V>(row: Answers<V>, t: Test<V>) {
    row(t.col, t.op, t.vals) == t.want
  }

  ghost predicate PassesAll<V(!new)>(row: Answers<V>, tests: set<Test<V>>) {
    forall t | t in tests :: Passes(row, t)
  }

  lemma {:induction false} SelectsIsPasses<V(!new)>(row: Answers<V>, frags: seq<Fragment>, params: map<string, V>)
    requires AllBound(frags, params)
    ensures Selects(row, frags, params) <==> PassesAll(row, Tests(frags, params))
  {
    if frags != [] {
      SelectsIsPasses(row, frags[..|frags| - 1], params);
      FragmentIsPasses(row, frags[|frags| - 1], params);
    }
  }

  lemma FragmentIsPasses<V(!new)>(row: Answers<V>, f: Fragment, params: map<string, V>)
    requires forall n | n in Names(f) :: n in params
    ensures Holds(row, f, params) <==> PassesAll(row, FragmentTests(f, params))
  {
    forall t | t in FragmentTests(f, params) && Holds(row, f, params) ensures Passes(row, t) {}
    if PassesAll(row, FragmentTests(f, params)) {
      match f
      case Compare(col, op, name) => assert Passes(row, OperatorTest(col, op, params[name]));
      case Range(col, from, to) =>
        assert Passes(row, Test(col, Gte, [params[from]], true)) && Passes(row, Test(col, Lte, [params[to]], true));
      case NullTest(col, isNull) => assert Passes(row, Test(col, Eq, [], isNull));
    }
  }

  lemma {:induction false} WantedIsPasses<V(!new)>(row: Answers<V>, calls: seq<Call<V>>)
    ensures AllWanted(row, calls) <==> PassesAll(row, Asked(calls))
  {
    if calls != [] {
      var last := calls[|calls| - 1];
      WantedIsPasses(row, calls[..|calls| - 1]);
      CallIsPasses(row, last);
    }
  }

  lemma CallIsPasses<V(!new)>(row: Answers<V>, call: Call<V>)
    ensures Wanted(row, call) <==> PassesAll(row, CallTests(call))
  {
    forall t | t in CallTests(call) && Wanted(row, call) ensures Passes(row, t) {}
    if PassesAll(row, CallTests(call)) {
      match call
      case Bind(_, _) =>
      case Where(col, op, v) => assert Passes(row, OperatorTest(col, op, v));
      case Between(col, low, high) =>
        assert Passes(row, Test(col, Gte, [low], true)) && Passes(row, Test(col, Lte, [high], true));
      case Null(col, isNull) => assert Passes(row, Test(col, Eq, [], isNull));
    }
  }

  /** The same test, wanted both ways. */
  ghost predicate Clash<V(!new)>(tests: set<Test<V>>) {
    exists t | t in tests :: t.(want := !t.want) in tests
  }

  /** Two sets of tests pass the same rows exactly when they are the same set, or no row passes
      either. */
  lemma SameRowsIff<V(!new)>(a: set<Test<V>>, b: set<Test<V>>)
    ensures PassAlike(a, b) <==> a == b || (Clash(a) && Clash(b))
  {
    if Clash(a) && Clash(b) {
      forall row: Answers<V> ensures !PassesAll(row, a) && !PassesAll(row, b) {
        ClashSelectsNone(row, a);
        ClashSelectsNone(row, b);
      }
    }
    if PassAlike(a, b) {
      if !Clash(a) { Distinguished(a, b); ClashOrPassed(b, a); }
      if !Clash(b) { Distinguished(b, a); ClashOrPassed(a, b); }
    }
  }

  lemma ClashSelectsNone<V(!new)>(row: Answers<V>, tests: set<Test<V>>)
    requires Clash(tests)
    ensures !PassesAll(row, tests)
  {
    var t :| t in tests && t.(want := !t.want) in tests;
    assert Passes(row, t) ==> !Passes(row, t.(want := !t.want));
  }

  /** The row that answers as the tests want, and `rest` to everything they do not ask. */
  ghost function Typical<V(!new)>(tests: set<Test<V>>, rest: bool): Answers<V> {
    (col, op, vals) => if Test(col, op, vals, !rest) in tests then !rest else rest
  }

  lemma TypicalPasses<V(!new)>(tests: set<Test<V>>, rest: bool)
    requires !Clash(tests)
    ensures PassesAll(Typical(tests, rest), tests)
  {
    forall t | t in tests ensures Passes(Typical(tests, rest), t) {
      if t.want == rest {
        assert t.(want := !t.want) == Test(t.col, t.op, t.vals, !rest);
      } else {
        assert t == Test(t.col, t.op, t.vals, !rest);
      }
    }
  }

  /** Tests that pass every row `a` passes are all among `a`'s. */
  lemma Distinguished<V(!new)>(a: set<Test<V>>, b: set<Test<V>>)
    requires !Clash(a)
    requires forall row: Answers<V> :: PassesAll(row, a) ==> PassesAll(row, b)
    ensures b <= a
  {
    forall t | t in b ensures t in a {
      var row := Typical(a, !t.want);
      TypicalPasses(a, !t.want);
      assert Passes(row, t);
      assert t == Test(t.col, t.op, t.vals, t.want);
    }
  }

  lemma ClashOrPassed<V(!new)>(b: set<Test<V>>, a: set<Test<V>>)
    requires !Clash(a) && b <= a
    ensures !Clash(b)
  {
  }

  /** Both clauses select the same rows, whatever the rows answer. */
  ghost predicate SelectAlike<V(!new)>(c: Clause<V>, d: Clause<V>)
    requires AllBound(c.frags, c.params) && AllBound(d.frags, d.params)
  {
    forall row: Answers<V> :: Selects(row, c.frags, c.params) <==> Selects(row, d.frags, d.params)
  }

  /** The clause selects exactly the rows that were asked for. */
  ghost predicate SelectsAsked<V(!new)>(c: Clause<V>, calls: seq<Call<V>>)
    requires AllBound(c.frags, c.params)
  {
    forall row: Answers<V> :: Selects(row, c.frags, c.params) <==> AllWanted(row, calls)
  }

  ghost predicate PassAlike<V(!new)>(a: set<Test<V>>, b: set<Test<V>>) {
    forall row: Answers<V> :: PassesAll(row, a) <==> PassesAll(row, b)
  }

  lemma SelectAlikeIs<V(!new)>(c: Clause<V>, d: Clause<V>)
    requires AllBound(c.frags, c.params) && AllBound(d.frags, d.params)
    ensures SelectAlike(c, d) <==> PassAlike(Tests(c.frags, c.params), Tests(d.frags, d.params))
  {
    hide Tests, Selects, PassesAll;
    forall row: Answers<V>
      ensures Selects(row, c.frags, c.params) <==> PassesAll(row, Tests(c.frags, c.params))
      ensures Selects(row, d.frags, d.params) <==> PassesAll(row, Tests(d.frags, d.params))
    {
      SelectsIsPasses(row, c.frags, c.params);
      SelectsIsPasses(row, d.frags, d.params);
    }
  }

  lemma SelectsAskedIs<V(!new)>(c: Clause<V>, calls: seq<Call<V>>)
    requires AllBound(c.frags, c.params)
    ensures SelectsAsked(c, calls) <==> PassAlike(Tests(c.frags, c.params), Asked(calls))
  {
    hide Tests, Asked, Selects, AllWanted, PassesAll;
    forall row: Answers<V>
      ensures Selects(row, c.frags, c.params) <==> PassesAll(row, Tests(c.frags, c.params))
      ensures AllWanted(row, calls) <==> PassesAll(row, Asked(calls))
    {
      SelectsIsPasses(row, c.frags, c.params);
      WantedIsPasses(row, calls);
    }
  }

  /** A bind leaves the rows a clause selects alone exactly when it changes none of the conditions
      its fragments test, or the clause asks for something and its opposite before and after. */
  lemma BindKeepsIff<V(!new)>(c: Clause<V>, name: string, v: V)
    requires AllBound(c.frags, c.params)
    ensures var d := Apply(c, Bind(name, v));
            var before, after := Tests(c.frags, c.params), Tests(d.frags, d.params);
            && AllBound(d.frags, d.params)
            && (SelectAlike(d, c) <==> after == before || (Clash(after) && Clash(before)))
            && (name !in Placeholders(c.frags) || c.params[name] == v ==> after == before)
  {
    hide Tests, SelectAlike, PassAlike, Clash;
    var d := Apply(c, Bind(name, v));
    SelectAlikeIs(d, c);
    SameRowsIff(Tests(d.frags, d.params), Tests(c.frags, c.params));
    if name !in Placeholders(c.frags) || c.params[name] == v { TestsFramed(c.frags, c.params, d.params); }
  }

  lemma {:induction false} TestsFramed<V(!new)>(frags: seq<Fragment>, params: map<string, V>, grown: map<string, V>)
    requires AllBound(frags, params)
    requires forall n | n in Placeholders(frags) :: n in grown && grown[n] == params[n]
    ensures AllBound(frags, grown) && Tests(frags, grown) == Tests(frags, params)
  {
    if frags != [] {
      TestsFramed(frags[..|frags| - 1], params, grown);
    }
  }

  lemma {:induction false} AlwaysBound<V(!new)>(calls: seq<Call<V>>)
    ensures AllBound(Built(calls).frags, Built(calls).params)
  {
    hide ParamName, Base;
    if calls != [] {
      var prior, last := calls[..|calls| - 1], calls[|calls| - 1];
      AlwaysBound(prior);
      var c, d := Built(prior), Built(calls);
      assert d.frags == c.frags || d.frags[..|d.frags| - 1] == c.frags;
      assert c.params.Keys <= d.params.Keys;
    }
  }

  /** After any calls whatever, every placeholder is bound, and the clause selects the rows that
      were asked for exactly when the conditions it tests in the end are the ones its operators
      were given, or what was asked for and what is tested each hold something and its opposite. */
  lemma BuiltMeansWantedIff<V(!new)>(calls: seq<Call<V>>)
    ensures var c := Built(calls);
            var asked := Asked(calls);
            && AllBound(c.frags, c.params)
            && (SelectsAsked(c, calls) <==>
                Tests(c.frags, c.params) == asked || (Clash(Tests(c.frags, c.params)) && Clash(asked)))
  {
    hide Tests, Asked, Built, SelectsAsked, PassAlike, Clash;
    var c := Built(calls);
    AlwaysBound(calls);
    SelectsAskedIs(c, calls);
    SameRowsIff(Tests(c.frags, c.params), Asked(calls));
  }

  /** Binding over an operator's placeholder silently changes what the operator compares with. */
  lemma RebindingChangesMeaning<V>(row: Answers<V>, col: string, a: V, b: V)
    requires row(col, Eq, [a]) && !row(col, Eq, [b])
    ensures var calls := [Where(col, Eq, a), Bind(col, b)];
            var c := Built(calls);
            && AllWanted(row, calls) && AllBound(c.frags, c.params) && !Selects(row, c.frags, c.params)
  {
    var calls := [Where(col, Eq, a), Bind(col, b)];
    assert calls[..1] == [Where(col, Eq, a)] && calls[..1][..0] == [];
    assert Built(calls[..1]) == Clause([Compare(col, Eq, col)], map[col := a]);
    var c := Built(calls);
    assert c == Clause([Compare(col, Eq, col)], map[col := b]);
    assert c.frags[..0] == [];
    assert Placeholders(c.frags) == [col];
    assert Wanted(row, Where(col, Eq, a)) && AllWanted(row, []);
    assert calls[..1][0] == Where(col, Eq, a);
    assert AllWanted(row, calls[..1]);
  }
}
