/** What interrupted and resumed applications of one override do to the data, for any meaning
    `run` of statements over any state of a database. */
module PhaseEngineMeaning {
  import opened Text
  import opened OverridePhases
  import opened PhaseEngine
  import opened PhaseEngineProofs

  function Sql(x: Entry): string {
    x.sql
  }

  /** The database after the durable statements of a log. */
  function Content<D>(run: (string, D) -> D, log: seq<Entry>, d: D): D {
    if log == [] then d else run(Sql(log[|log| - 1]), Content(run, log[..|log| - 1], d))
  }

  /** The database after running a list of statements in order. */
  function RunAll<D>(run: (string, D) -> D, statements: seq<string>, d: D): D {
    if statements == [] then d
    else run(statements[|statements| - 1], RunAll(run, statements[..|statements| - 1], d))
  }

  /** The database after running the statements at the given indices, in that order. */
  function RunAt<D>(run: (string, D) -> D, statements: seq<string>, at: seq<nat>, d: D): D {
    if at == [] then d
    else
      var before := RunAt(run, statements, at[..|at| - 1], d);
      var i := at[|at| - 1];
      if i < |statements| then run(statements[i], before) else before
  }

  /** Running statement `i` of the list ahead of the list makes no difference to its result. */
  ghost predicate Absorbed<D(!new)>(run: (string, D) -> D, statements: seq<string>, i: nat)
    requires i < |statements|
  {
    forall d :: RunAll(run, statements, run(statements[i], d)) == RunAll(run, statements, d)
  }

  /** Every copy statement that commits as it runs may be repeated by a later attempt. */
  ghost predicate ReplaySafe<D(!new)>(run: (string, D) -> D, e: Engine, copy: seq<string>) {
    forall i | 0 <= i < |copy| && !e.joins(copy[i]) :: Absorbed(run, copy, i)
  }

  // ----- a sufficient condition for replay safety -----

  ghost predicate Idempotent<D(!new)>(run: (string, D) -> D, s: string) {
    forall d :: run(s, run(s, d)) == run(s, d)
  }

  ghost predicate Commutes<D(!new)>(run: (string, D) -> D, s: string, t: string) {
    forall d :: run(s, run(t, d)) == run(t, run(s, d))
  }

  /** A statement that is idempotent and independent of what stands before it is absorbed. */
  lemma IdempotentIsAbsorbed<D(!new)>(run: (string, D) -> D, statements: seq<string>, i: nat)
    requires i < |statements| && Idempotent(run, statements[i])
    requires forall j | 0 <= j < i :: Commutes(run, statements[i], statements[j])
    ensures Absorbed(run, statements, i)
  {
    forall d ensures RunAll(run, statements, run(statements[i], d)) == RunAll(run, statements, d) {
      Hoist(run, statements, i, i, d);
      assert statements[..i + 1][..i] == statements[..i];
      assert RunAll(run, statements[..i + 1], run(statements[i], d)) == RunAll(run, statements[..i + 1], d);
      SameTail(run, statements, i + 1, |statements|, run(statements[i], d), d);
      assert statements[..|statements|] == statements;
    }
  }

  lemma {:induction false} Hoist<D(!new)>(run: (string, D) -> D, statements: seq<string>, i: nat, n: nat, d: D)
    requires n <= i < |statements|
    requires forall j | 0 <= j < n :: Commutes(run, statements[i], statements[j])
    ensures RunAll(run, statements[..n], run(statements[i], d)) == run(statements[i], RunAll(run, statements[..n], d))
  {
    if n > 0 {
      Hoist(run, statements, i, n - 1, d);
      assert statements[..n][..n - 1] == statements[..n - 1];
      assert Commutes(run, statements[i], statements[n - 1]);
    }
  }

  lemma {:induction false} SameTail<D>(run: (string, D) -> D, statements: seq<string>, k: nat, n: nat, d: D, d': D)
    requires k <= n <= |statements|
    requires RunAll(run, statements[..k], d) == RunAll(run, statements[..k], d')
    ensures RunAll(run, statements[..n], d) == RunAll(run, statements[..n], d')
    decreases n
  {
    if k < n {
      SameTail(run, statements, k, n - 1, d, d');
      assert statements[..n][..n - 1] == statements[..n - 1];
    }
  }

  // ----- folding the shapes -----

  lemma {:induction false} ContentConcat<D>(run: (string, D) -> D, a: seq<Entry>, b: seq<Entry>, d: D)
    ensures Content(run, a + b, d) == Content(run, b, Content(run, a, d))
  {
    if b == [] {
      assert a + b == a;
    } else {
      assert (a + b)[..|a + b| - 1] == a + b[..|b| - 1];
      ContentConcat(run, a, b[..|b| - 1], d);
    }
  }

  lemma {:induction false} CopyEntriesMean<D>(run: (string, D) -> D, file: string, copy: seq<string>, n: nat, d: D)
    requires n <= |copy|
    ensures Content(run, CopyEntries(file, copy, n), d) == RunAll(run, copy[..n], d)
  {
    if n > 0 {
      CopyEntriesMean(run, file, copy, n - 1, d);
      ContentConcat(run, CopyEntries(file, copy, n - 1), [CopyRun(file, n - 1, copy[n - 1])], d);
      assert copy[..n][..n - 1] == copy[..n - 1];
    }
  }

  lemma {:induction false} AutoEntriesAbsorbed<D(!new)>(run: (string, D) -> D, e: Engine, file: string,
      copy: seq<string>, n: nat, d: D)
    requires n <= |copy| && ReplaySafe(run, e, copy)
    ensures RunAll(run, copy, Content(run, AutoEntries(e, file, copy, n), d)) == RunAll(run, copy, d)
  {
    if n > 0 {
      AutoEntriesAbsorbed(run, e, file, copy, n - 1, d);
      if e.joins(copy[n - 1]) {
        assert AutoEntries(e, file, copy, n) == AutoEntries(e, file, copy, n - 1);
      } else {
        ContentConcat(run, AutoEntries(e, file, copy, n - 1), [CopyRun(file, n - 1, copy[n - 1])], d);
        assert Absorbed(run, copy, n - 1);
      }
    }
  }

  lemma {:induction false} SwapEntriesMean<D>(run: (string, D) -> D, file: string, swap: seq<string>, a: nat,
      b: nat, d: D)
    requires a <= b <= |swap|
    ensures Content(run, SwapEntries(file, swap, a, b), d) == RunAt(run, swap, Range(a, b), d)
    decreases b
  {
    if a < b {
      SwapEntriesMean(run, file, swap, a, b - 1, d);
      ContentConcat(run, SwapEntries(file, swap, a, b - 1), [SwapRun(file, b - 1, swap[b - 1])], d);
      assert Range(a, b)[..b - a - 1] == Range(a, b - 1);
    }
  }

  lemma {:induction false} RunAtConcat<D>(run: (string, D) -> D, statements: seq<string>, a: seq<nat>, b: seq<nat>,
      d: D)
    ensures RunAt(run, statements, a + b, d) == RunAt(run, statements, b, RunAt(run, statements, a, d))
  {
    if b == [] {
      assert a + b == a;
    } else {
      assert (a + b)[..|a + b| - 1] == a + b[..|b| - 1];
      RunAtConcat(run, statements, a, b[..|b| - 1], d);
    }
  }

  lemma {:induction false} RunAtRange<D>(run: (string, D) -> D, statements: seq<string>, n: nat, d: D)
    requires n <= |statements|
    ensures RunAt(run, statements, Range(0, n), d) == RunAll(run, statements[..n], d)
  {
    if n > 0 {
      RunAtRange(run, statements, n - 1, d);
      assert Range(0, n)[..n - 1] == Range(0, n - 1);
      assert statements[..n][..n - 1] == statements[..n - 1];
    }
  }

  lemma {:induction false} RunAllConcat<D>(run: (string, D) -> D, a: seq<string>, b: seq<string>, d: D)
    ensures RunAll(run, a + b, d) == RunAll(run, b, RunAll(run, a, d))
  {
    if b == [] {
      assert a + b == a;
    } else {
      assert (a + b)[..|a + b| - 1] == a + b[..|b| - 1];
      RunAllConcat(run, a, b[..|b| - 1], d);
    }
  }

  // ----- attempts -----

  /** Repeated attempts at one override, each with its own script; a registered override is
      pending no more and is skipped. */
  function Attempts(e: Engine, w: World, o: Override, scripts: seq<seq<Outcome>>): World {
    if scripts == [] then w
    else
      var v := Attempts(e, w, o, scripts[..|scripts| - 1]);
      if o.file in v.applied then v else ApplyOverride(e, v.(script := scripts[|scripts| - 1]), o).w
  }

  /** The data so far, where `d0` is the empty database and `c0` the data before the first
      attempt: once the copy phase needs no more work, the copies have happened once and then
      exactly the swaps the log shows; before that, running the copies now still gives what
      running them at the start would have given. */
  ghost predicate MeansSoFar<D(!new)>(run: (string, D) -> D, d0: D, c0: D, e: Engine, w: World, o: Override) {
    var phases := Split(o.statements, e.isSwap);
    var c := Content(run, w.log, d0);
    if o.file in w.applied || ProgressOf(w, o.file).copyDone || phases.copy == [] then
      c == RunAt(run, phases.swap, Swaps(w.log, o.file), RunAll(run, phases.copy, c0))
    else
      RunAll(run, phases.copy, c) == RunAll(run, phases.copy, c0)
  }

  lemma CopyPhaseMeans<D(!new)>(run: (string, D) -> D, d0: D, c0: D, e: Engine, w: World, o: Override)
    requires InOrder(e, w, o) && o.file !in w.applied && !ProgressOf(w, o.file).copyDone
    requires Split(o.statements, e.isSwap).copy != []
    requires ReplaySafe(run, e, Split(o.statements, e.isSwap).copy)
    requires MeansSoFar(run, d0, c0, e, w, o)
    ensures MeansSoFar(run, d0, c0, e, CopyPhase(e, w, o.file, Split(o.statements, e.isSwap).copy).w, o)
  {
    hide OfClass, Climbs, Joining, CopyEntries, AutoEntries, CopyPhase, ReplaySafe, Range, Below, RunAll, Content, Dml, Swaps;
    var phases := Split(o.statements, e.isSwap);
    var copy := phases.copy;
    var committed, j := CopyPhaseShape(e, w, o.file, copy);
    assert Reached(Swaps(w.log, o.file)) == 0;
    var c := Content(run, w.log, d0);
    var added := if committed then CopyEntries(o.file, copy, |copy|) else AutoEntries(e, o.file, copy, j);
    ContentConcat(run, w.log, added, d0);
    DmlConcat(e, w.log, added, o.file);
    CopyEntriesRead(e, o.file, copy, if committed then |copy| else j, o.file);
    if committed {
      CopyEntriesMean(run, o.file, copy, |copy|, c);
      assert copy[..|copy|] == copy;
    } else {
      AutoEntriesAbsorbed(run, e, o.file, copy, j, c);
    }
  }

  lemma SwapPhaseMeans<D(!new)>(run: (string, D) -> D, d0: D, c0: D, e: Engine, w: World, o: Override, k: nat)
    requires ReadyToSwap(e, w, o, k) && k <= |Split(o.statements, e.isSwap).swap|
    requires MeansSoFar(run, d0, c0, e, w, o)
    ensures MeansSoFar(run, d0, c0, e, SwapPhase(w, o.file, Split(o.statements, e.isSwap).swap, Below(k), 0).w, o)
  {
    hide OfClass, Climbs, Joining, SwapEntries, Range, Below, RunAll, Content, Dml, Swaps, SwapPhase, RunAt;
    var phases := Split(o.statements, e.isSwap);
    SkipsDone(w, o.file, phases.swap, k, 0);
    BelowHolds(k);
    var marked, ran := SwapPhaseShape(w, o.file, phases.swap, Below(k), k);
    var added := SwapEntries(o.file, phases.swap, k, ran);
    ContentConcat(run, w.log, added, d0);
    DmlConcat(e, w.log, added, o.file);
    SwapEntriesRead(e, o.file, phases.swap, k, ran, o.file);
    SwapEntriesMean(run, o.file, phases.swap, k, ran, Content(run, w.log, d0));
    RunAtConcat(run, phases.swap, Swaps(w.log, o.file), Range(k, ran), RunAll(run, phases.copy, c0));
  }

  lemma BelowHolds(k: nat)
    ensures forall i | i in Below(k) :: i < k
  {
  }

  /** The copy phase needs no more work. */
  predicate CopiesDone(e: Engine, w: World, o: Override) {
    o.file in w.applied || ProgressOf(w, o.file).copyDone || Split(o.statements, e.isSwap).copy == []
  }

  lemma MeansStays<D(!new)>(run: (string, D) -> D, d0: D, c0: D, e: Engine, w: World, w': World, o: Override)
    requires w'.log == w.log && (CopiesDone(e, w', o) <==> CopiesDone(e, w, o))
    requires MeansSoFar(run, d0, c0, e, w, o)
    ensures MeansSoFar(run, d0, c0, e, w', o)
  {
    hide OfClass, RunAll, RunAt, Content, Swaps;
  }

  lemma AfterCopyMeans<D(!new)>(run: (string, D) -> D, d0: D, c0: D, e: Engine, w: World, o: Override)
    requires InOrder(e, w, o) && o.file !in w.applied
    requires ReplaySafe(run, e, Split(o.statements, e.isSwap).copy)
    requires MeansSoFar(run, d0, c0, e, w, o)
    ensures MeansSoFar(run, d0, c0, e, AfterCopy(e, w, o).w, o)
  {
    hide OfClass, MeansSoFar, ReplaySafe, CopyPhase, Climbs, Joining, Below, Dml, Swaps, CopyDurable;
    var s := Call(w, w);
    MeansStays(run, d0, c0, e, w, s.w, o);
    if s.ok && Split(o.statements, e.isSwap).copy != [] && !ProgressOf(s.w, o.file).copyDone {
      CopyPhaseMeans(run, d0, c0, e, s.w, o);
    }
  }

  lemma FinishMeans<D(!new)>(run: (string, D) -> D, d0: D, c0: D, e: Engine, w: World, o: Override)
    requires CopiesDone(e, w, o) && MeansSoFar(run, d0, c0, e, w, o)
    ensures var r := Register(w, o);
            && MeansSoFar(run, d0, c0, e, r.w, o)
            && (r.ok ==> MeansSoFar(run, d0, c0, e, Call(r.w, Cleared(r.w, o.file)).w, o))
  {
    hide OfClass, MeansSoFar;
    var r := Register(w, o);
    MeansStays(run, d0, c0, e, w, r.w, o);
    if r.ok { MeansStays(run, d0, c0, e, r.w, Call(r.w, Cleared(r.w, o.file)).w, o); }
  }

  lemma AfterSwapMeans<D(!new)>(run: (string, D) -> D, d0: D, c0: D, e: Engine, w: World, o: Override, k: nat)
    requires ReadyToSwap(e, w, o, k) && MeansSoFar(run, d0, c0, e, w, o)
    ensures MeansSoFar(run, d0, c0, e, AfterSwap(e, w, o, Below(k)).w, o)
  {
    hide OfClass, MeansSoFar, InOrder, SwapPhase, Register, Below, SameForOthers, Concerns, Swaps;
    SwapPhaseKeepsOrder(e, w, o, k);
    SwapPhaseMeans(run, d0, c0, e, w, o, k);
    var p := SwapPhase(w, o.file, Split(o.statements, e.isSwap).swap, Below(k), 0);
    if p.ok { FinishMeans(run, d0, c0, e, p.w, o); }
  }

  lemma ApplyMeans<D(!new)>(run: (string, D) -> D, d0: D, c0: D, e: Engine, w: World, o: Override)
    requires InOrder(e, w, o) && o.file !in w.applied
    requires ReplaySafe(run, e, Split(o.statements, e.isSwap).copy)
    requires MeansSoFar(run, d0, c0, e, w, o)
    ensures MeansSoFar(run, d0, c0, e, ApplyOverride(e, w, o).w, o)
  {
    hide InOrder, MeansSoFar, ReplaySafe, ApplyOverride, AfterCopy, AfterSwap, ReadyToSwap, Below, SameForOthers, Concerns, OfClass;
    ApplyIs(e, w, o);
    var k := AfterCopyKeepsOrder(e, w, o);
    AfterCopyMeans(run, d0, c0, e, w, o);
    var c := AfterCopy(e, w, o);
    if c.ok { AfterSwapMeans(run, d0, c0, e, c.w, o, k); }
  }

  /** No statement of `o` has run and nothing is recorded about it. */
  ghost predicate Untouched(e: Engine, w: World, o: Override) {
    && Dml(e, w.log, o.file) == [] && Swaps(w.log, o.file) == []
    && ProgressOf(w, o.file) == Progress(false, {}) && o.file !in w.applied
  }

  /** After any number of attempts with any scripts, the override is in order and the data is
      what its phases account for. */
  lemma {:induction false} AttemptsMean<D(!new)>(run: (string, D) -> D, d0: D, e: Engine, w: World, o: Override,
      scripts: seq<seq<Outcome>>)
    requires Untouched(e, w, o)
    requires ReplaySafe(run, e, Split(o.statements, e.isSwap).copy)
    ensures InOrder(e, Attempts(e, w, o, scripts), o)
    ensures MeansSoFar(run, d0, Content(run, w.log, d0), e, Attempts(e, w, o, scripts), o)
  {
    hide InOrder, MeansSoFar, ReplaySafe, Untouched, ApplyOverride, Content;
    if scripts == [] {
      UntouchedMeans(run, d0, e, w, o);
    } else {
      var prior := scripts[..|scripts| - 1];
      AttemptsMean(run, d0, e, w, o, prior);
      var v := Attempts(e, w, o, prior);
      if o.file !in v.applied {
        var c0 := Content(run, w.log, d0);
        var u := v.(script := scripts[|scripts| - 1]);
        ScriptChanges(run, d0, c0, e, v, u, o);
        ApplyKeepsOrder(e, u, o);
        ApplyMeans(run, d0, c0, e, u, o);
      }
    }
  }

  lemma UntouchedMeans<D(!new)>(run: (string, D) -> D, d0: D, e: Engine, w: World, o: Override)
    requires Untouched(e, w, o)
    ensures InOrder(e, w, o) && MeansSoFar(run, d0, Content(run, w.log, d0), e, w, o)
  {
    hide OfClass, Content, Dml, Swaps, CopyDurable;
    NoneBelow();
  }

  lemma NoneBelow()
    ensures Below(0) == {}
  {
  }

  lemma ScriptChanges<D(!new)>(run: (string, D) -> D, d0: D, c0: D, e: Engine, v: World, u: World, o: Override)
    requires u == v.(script := u.script) && InOrder(e, v, o) && MeansSoFar(run, d0, c0, e, v, o)
    ensures InOrder(e, u, o) && MeansSoFar(run, d0, c0, e, u, o)
  {
    hide OfClass, Climbs, Joining, Below, RunAll, Content, Dml, Swaps, RunAt, CopyDurable;
  }

  /** No swap ran twice in a row: no attempt died between a swap and its mark. */
  predicate NoRepeat(s: seq<nat>) {
    forall i | 0 < i < |s| :: s[i - 1] != s[i]
  }

  /** A resumed override means what was authored: once it is registered and no swap ran twice, the
      data is the result of running the authored list once, in order. */
  lemma ResumedMeansAuthored<D(!new)>(run: (string, D) -> D, d0: D, e: Engine, w: World, o: Override,
      scripts: seq<seq<Outcome>>)
    requires Untouched(e, w, o)
    requires PhaseOrdered(o.statements, e.isSwap)
    requires ReplaySafe(run, e, Split(o.statements, e.isSwap).copy)
    ensures var w' := Attempts(e, w, o, scripts);
            var ran := Swaps(w'.log, o.file);
            o.file in w'.applied && NoRepeat(ran) ==>
            Content(run, w'.log, d0) == RunAll(run, o.statements, Content(run, w.log, d0))
  {
    hide OfClass, Climbs, Joining, Below, RunAll, Content, Dml, Swaps, RunAt, Range, Attempts, ReplaySafe;
    AttemptsMean(run, d0, e, w, o, scripts);
    var w' := Attempts(e, w, o, scripts);
    var ran := Swaps(w'.log, o.file);
    var phases := Split(o.statements, e.isSwap);
    if o.file in w'.applied && NoRepeat(ran) {
      StrictClimb(ran);
      assert ran == Range(0, |phases.swap|);
      assert phases.copy + phases.swap == o.statements;
      var copied := RunAll(run, phases.copy, Content(run, w.log, d0));
      assert Content(run, w'.log, d0) == RunAt(run, phases.swap, ran, copied);
      RunAtRange(run, phases.swap, |phases.swap|, copied);
      assert phases.swap[..|phases.swap|] == phases.swap;
      assert Content(run, w'.log, d0) == RunAll(run, phases.swap, copied);
      RunAllConcat(run, phases.copy, phases.swap, Content(run, w.log, d0));
    }
  }

  lemma {:induction false} StrictClimb(s: seq<nat>)
    requires Climbs(s) && NoRepeat(s)
    ensures Reached(s) == |s| && s == Range(0, |s|)
  {
    if s != [] {
      StrictClimb(s[..|s| - 1]);
      assert s == s[..|s| - 1] + [s[|s| - 1]];
      if |s| > 1 {
        assert s[|s| - 2] == s[..|s| - 1][|s| - 2];
      }
    }
  }
}
