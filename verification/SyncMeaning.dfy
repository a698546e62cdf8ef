/** What whole histories of interrupted syncs do to the data. */
module SyncMeaning {
  import opened Text
  import opened OverridePhases
  import opened PhaseEngine
  import opened PhaseEngineProofs
  import opened PhaseEngineMeaning
  import opened SyncRun
  import opened SyncProofs

  // ----- the diff statements of a log -----

  function DiffSql(log: seq<Entry>): seq<string> {
    if log == [] then []
    else DiffSql(log[..|log| - 1]) + (if log[|log| - 1].DiffRun? then [log[|log| - 1].sql] else [])
  }

  lemma {:induction false} DiffSqlConcat(a: seq<Entry>, b: seq<Entry>)
    ensures DiffSql(a + b) == DiffSql(a) + DiffSql(b)
  {
    if b == [] {
      assert a + b == a;
    } else {
      assert (a + b)[..|a + b| - 1] == a + b[..|b| - 1];
      DiffSqlConcat(a, b[..|b| - 1]);
    }
  }

  lemma {:induction false} NoDiffSql(log: seq<Entry>)
    requires forall x | x in log :: !x.DiffRun?
    ensures DiffSql(log) == []
  {
    if log != [] { NoDiffSql(log[..|log| - 1]); }
  }

  /** Diff statements, run in log order. */
  lemma {:induction false} DiffsMean<D>(run: (string, D) -> D, added: seq<Entry>, d: D)
    requires forall x | x in added :: x.DiffRun?
    ensures Content(run, added, d) == RunAll(run, DiffSql(added), d)
  {
    if added != [] {
      DiffsMean(run, added[..|added| - 1], d);
      assert added[|added| - 1] in added;
      var sql := DiffSql(added);
      assert sql[..|sql| - 1] == DiffSql(added[..|added| - 1]);
    }
  }

  /** What the log gained since it was `log0`. */
  function Since(log0: seq<Entry>, log: seq<Entry>): seq<Entry>
    requires log0 <= log
  {
    log[|log0|..]
  }

  lemma SinceGrows(log0: seq<Entry>, log: seq<Entry>, log': seq<Entry>)
    requires log0 <= log <= log'
    ensures Since(log0, log') == Since(log0, log) + Since(log, log')
    ensures log' == log + Since(log, log')
  {
  }

  // ----- how far a history has come -----

  /** The data after the first `k` overrides, each with its copies once and the swaps the log shows. */
  function Through<D>(run: (string, D) -> D, e: Engine, log: seq<Entry>, overrides: seq<Override>, k: nat, c0: D): D
    requires k <= |overrides|
  {
    if k == 0 then c0
    else
      var o := overrides[k - 1];
      var phases := Split(o.statements, e.isSwap);
      RunAt(run, phases.swap, Swaps(log, o.file), RunAll(run, phases.copy, Through(run, e, log, overrides, k - 1, c0)))
  }

  /** The first `k` overrides are registered, the others are not, and all but the next are
      untouched. Until all are registered no diff statement has run, and the data is that of the
      first `k` overrides and of the attempts at the next; after that, it is that of all
      overrides and then of the diff statements logged. */
  ghost predicate Progressed<D(!new)>(run: (string, D) -> D, d0: D, e: Engine, log0: seq<Entry>, w: World,
                                      overrides: seq<Override>, k: nat)
  {
    && k <= |overrides| && log0 <= w.log
    && (forall i | 0 <= i < k :: overrides[i].file in w.applied && PhaseOrdered(overrides[i].statements, e.isSwap))
    && (forall i | k <= i < |overrides| :: overrides[i].file !in w.applied)
    && (forall i | k < i < |overrides| :: Untouched(e, w, overrides[i]))
    && var c := Through(run, e, w.log, overrides, k, Content(run, log0, d0));
       var diffs := DiffSql(Since(log0, w.log));
       if k < |overrides| then diffs == [] && MeansSoFar(run, d0, c, e, w, overrides[k])
       else Content(run, w.log, d0) == RunAll(run, diffs, c)
  }

  lemma {:induction false} ThroughSame<D>(run: (string, D) -> D, e: Engine, log: seq<Entry>, log': seq<Entry>,
      overrides: seq<Override>, k: nat, c0: D)
    requires k <= |overrides|
    requires forall i | 0 <= i < k :: Swaps(log', overrides[i].file) == Swaps(log, overrides[i].file)
    ensures Through(run, e, log', overrides, k, c0) == Through(run, e, log, overrides, k, c0)
  {
    hide Swaps, RunAt, RunAll, Split;
    if k > 0 { ThroughSame(run, e, log, log', overrides, k - 1, c0); }
  }

  /** Calls that leave the log, the progress and the registry alone. */
  lemma ProgressedIdle<D(!new)>(run: (string, D) -> D, d0: D, e: Engine, log0: seq<Entry>, w: World, w': World,
      overrides: seq<Override>, k: nat)
    requires Progressed(run, d0, e, log0, w, overrides, k)
    requires w'.log == w.log && w'.progress == w.progress && w'.applied == w.applied
    ensures Progressed(run, d0, e, log0, w', overrides, k)
  {
    hide Dml, Swaps, Content, RunAt, RunAll, OfClass, Through, DiffSql, PhaseOrdered;
    forall i | k < i < |overrides| ensures Untouched(e, w', overrides[i]) { assert Untouched(e, w, overrides[i]); }
  }

  /** Before anything of an override ran, its data is the data it starts from. */
  lemma FreshMeans<D(!new)>(run: (string, D) -> D, d0: D, e: Engine, w: World, o: Override)
    requires Untouched(e, w, o)
    ensures MeansSoFar(run, d0, Content(run, w.log, d0), e, w, o)
  {
    hide Dml, Swaps, Content, OfClass;
  }

  lemma UntouchedStays(e: Engine, w: World, w': World, o: Override)
    requires Untouched(e, w, o) && SameFor(e, w, w', o.file)
    ensures Untouched(e, w', o)
  {
    hide Dml, Swaps;
  }

  /** The next override has just been registered: on to the one after it, or to the diff. */
  lemma StepOn<D(!new)>(run: (string, D) -> D, d0: D, e: Engine, log0: seq<Entry>, w: World,
      overrides: seq<Override>, k: nat)
    requires k < |overrides| && log0 <= w.log && overrides[k].file in w.applied
    requires forall i | 0 <= i <= k :: overrides[i].file in w.applied && PhaseOrdered(overrides[i].statements, e.isSwap)
    requires forall i | k < i < |overrides| :: Untouched(e, w, overrides[i])
    requires DiffSql(Since(log0, w.log)) == []
    requires MeansSoFar(run, d0, Through(run, e, w.log, overrides, k, Content(run, log0, d0)), e, w, overrides[k])
    ensures Progressed(run, d0, e, log0, w, overrides, k + 1)
  {
    hide Dml, Swaps, Content, OfClass, RunAt, PhaseOrdered, DiffSql;
    var c := Through(run, e, w.log, overrides, k + 1, Content(run, log0, d0));
    assert Content(run, w.log, d0) == c;
    forall i | k + 1 <= i < |overrides| ensures overrides[i].file !in w.applied { assert Untouched(e, w, overrides[i]); }
    if k + 1 < |overrides| { FreshMeans(run, d0, e, w, overrides[k + 1]); }
  }

  // ----- one attempt at the next override -----

  lemma AttemptProgresses<D(!new)>(run: (string, D) -> D, d0: D, e: Engine, log0: seq<Entry>, w: World,
      overrides: seq<Override>, k: nat)
    requires Distinct(overrides) && k < |overrides| && Progressed(run, d0, e, log0, w, overrides, k)
    requires InOrder(e, w, overrides[k]) && PhaseOrdered(overrides[k].statements, e.isSwap)
    requires ReplaySafe(run, e, Split(overrides[k].statements, e.isSwap).copy)
    ensures var r := ApplyOverride(e, w, overrides[k]);
            Progressed(run, d0, e, log0, r.w, overrides, if overrides[k].file in r.w.applied then k + 1 else k)
  {
    hide Dml, Swaps, Content, OfClass, RunAt, RunAll, PhaseOrdered, DiffSql, InOrder, ApplyOverride, ReplaySafe, Through,
         MeansSoFar, Untouched;
    var o := overrides[k];
    var r := ApplyOverride(e, w, o);
    var c := Through(run, e, w.log, overrides, k, Content(run, log0, d0));
    ApplyKeepsOrder(e, w, o);
    ApplyMeans(run, d0, c, e, w, o);
    forall i | 0 <= i < |overrides| && i != k ensures SameFor(e, w, r.w, overrides[i].file) {}
    forall i | k < i < |overrides| ensures Untouched(e, r.w, overrides[i]) {
      UntouchedStays(e, w, r.w, overrides[i]);
    }
    ThroughSame(run, e, w.log, r.w.log, overrides, k, Content(run, log0, d0));
    NothingOfTheDiff(log0, w.log, r.w.log, o.file);
    if o.file in r.w.applied { StepOn(run, d0, e, log0, r.w, overrides, k); }
  }

  /** Between two attempts at an override nothing but its own statements is logged. */
  lemma NothingOfTheDiff(log0: seq<Entry>, log: seq<Entry>, log': seq<Entry>, file: string)
    requires log0 <= log && Concerns(log, log', file) && DiffSql(Since(log0, log)) == []
    ensures log0 <= log' && DiffSql(Since(log0, log')) == []
  {
    hide DiffSql;
    SinceGrows(log0, log, log');
    forall x | x in Since(log, log') ensures !x.DiffRun? {
      var i :| 0 <= i < |Since(log, log')| && Since(log, log')[i] == x;
      assert About(log'[|log| + i], file);
    }
    NoDiffSql(Since(log, log'));
    DiffSqlConcat(Since(log0, log), Since(log, log'));
  }

  // ----- one sync -----

  lemma {:induction false} PendingIsRest(applied: map<string, Registered>, overrides: seq<Override>, k: nat)
    requires k <= |overrides|
    requires forall i | 0 <= i < |overrides| :: overrides[i].file in applied <==> i < k
    ensures Unregistered(applied, overrides) == overrides[k..]
  {
    if overrides != [] {
      var n := |overrides| - 1;
      var prior := overrides[..n];
      assert forall i | 0 <= i < n :: prior[i] == overrides[i];
      if k <= n {
        PendingIsRest(applied, prior, k);
        assert overrides[k..] == prior[k..] + [overrides[n]];
      } else {
        PendingIsRest(applied, prior, n);
        assert overrides[k..] == prior[n..] == [];
      }
    }
  }

  ghost predicate AllSafe<D(!new)>(run: (string, D) -> D, e: Engine, overrides: seq<Override>) {
    forall i | 0 <= i < |overrides| :: ReplaySafe(run, e, Split(overrides[i].statements, e.isSwap).copy)
  }

  lemma {:induction false} ApplyAllProgresses<D(!new)>(run: (string, D) -> D, d0: D, e: Engine, log0: seq<Entry>,
      w: World, overrides: seq<Override>, from: nat, k: nat) returns (k': nat)
    requires Distinct(overrides) && from <= k <= |overrides| && AllInOrder(e, w, overrides)
    requires Progressed(run, d0, e, log0, w, overrides, k) && AllSafe(run, e, overrides)
    requires AllOrdered(e, overrides[from..])
    ensures var r := ApplyAll(e, w, overrides[from..], k - from);
            Progressed(run, d0, e, log0, r.w, overrides, k') && (r.ok ==> k' == |overrides|)
    decreases |overrides| - k
  {
    hide Progressed, InOrder, ApplyOverride, ReplaySafe, PhaseOrdered;
    k' := k;
    if k < |overrides| {
      var pending := overrides[from..];
      var o := overrides[k];
      assert pending[k - from] == o;
      assert o.file !in w.applied by { NextIsPending(run, d0, e, log0, w, overrides, k); }
      AttemptProgresses(run, d0, e, log0, w, overrides, k);
      ApplyKeepsOrder(e, w, o);
      var r := ApplyOverride(e, w, o);
      k' := if o.file in r.w.applied then k + 1 else k;
      if r.ok {
        forall i | 0 <= i < |overrides| ensures InOrder(e, r.w, overrides[i]) {
          if i != k {
            assert SameFor(e, w, r.w, overrides[i].file);
            InOrderFollows(e, w, r.w, overrides[i]);
          }
        }
        k' := ApplyAllProgresses(run, d0, e, log0, r.w, overrides, from, k + 1);
      }
    }
  }

  lemma NextIsPending<D(!new)>(run: (string, D) -> D, d0: D, e: Engine, log0: seq<Entry>, w: World,
      overrides: seq<Override>, k: nat)
    requires k < |overrides| && Progressed(run, d0, e, log0, w, overrides, k)
    ensures overrides[k].file !in w.applied
  {
    hide MeansSoFar, Through, DiffSql, Content, Untouched, PhaseOrdered;
  }

  /** Registering overrides without statements counts as running them. */
  lemma {:induction false} RegisterAllProgresses<D(!new)>(run: (string, D) -> D, d0: D, e: Engine, log0: seq<Entry>,
      w: World, overrides: seq<Override>, from: nat, k: nat) returns (k': nat)
    requires Distinct(overrides) && from <= k <= |overrides| && Progressed(run, d0, e, log0, w, overrides, k)
    requires forall i | from <= i < |overrides| :: overrides[i].statements == [] && Swaps(w.log, overrides[i].file) == []
    ensures var r := RegisterAll(w, overrides[from..], k - from);
            Progressed(run, d0, e, log0, r.w, overrides, k') && (r.ok ==> k' == |overrides|)
    decreases |overrides| - k
  {
    hide Progressed, Swaps, Distinct;
    k' := k;
    if k < |overrides| {
      var o := overrides[k];
      assert overrides[from..][k - from] == o;
      assert o.statements == [] && Swaps(w.log, o.file) == [];
      NextIsPending(run, d0, e, log0, w, overrides, k);
      var r := Register(w, o);
      if o.file in r.w.applied {
        RegisteredEmpty(run, d0, e, log0, w, r.w, overrides, k);
        k' := k + 1;
      } else {
        ProgressedIdle(run, d0, e, log0, w, r.w, overrides, k);
      }
      if r.ok { k' := RegisterAllProgresses(run, d0, e, log0, r.w, overrides, from, k + 1); }
    }
  }

  lemma RegisteredEmpty<D(!new)>(run: (string, D) -> D, d0: D, e: Engine, log0: seq<Entry>, w: World, w': World,
      overrides: seq<Override>, k: nat)
    requires Distinct(overrides) && k < |overrides| && Progressed(run, d0, e, log0, w, overrides, k)
    requires overrides[k].statements == [] && Swaps(w.log, overrides[k].file) == []
    requires w'.log == w.log && w'.progress == w.progress
    requires w'.applied == w.applied[overrides[k].file := Registered(overrides[k].checksum, overrides[k].statements)]
    ensures Progressed(run, d0, e, log0, w', overrides, k + 1)
  {
    hide Dml, Swaps, Content, RunAt, RunAll, DiffSql, Through;
    var o := overrides[k];
    assert Split(o.statements, e.isSwap) == Phases([], []);
    forall i | k < i < |overrides| ensures Untouched(e, w', overrides[i]) { assert Untouched(e, w, overrides[i]); }
    StepOn(run, d0, e, log0, w', overrides, k);
  }

  lemma DiffProgresses<D(!new)>(run: (string, D) -> D, d0: D, e: Engine, log0: seq<Entry>, w: World, w': World,
      overrides: seq<Override>)
    requires Progressed(run, d0, e, log0, w, overrides, |overrides|)
    requires w'.applied == w.applied && DiffOnly(w.log, w'.log) && SameForAll(e, w, w')
    ensures Progressed(run, d0, e, log0, w', overrides, |overrides|)
  {
    hide Dml, Swaps, Content, RunAt, RunAll, DiffSql, Through, PhaseOrdered, OfClass, Untouched;
    var added := Since(w.log, w'.log);
    SinceGrows(log0, w.log, w'.log);
    forall x | x in added ensures x.DiffRun? {
      var i :| 0 <= i < |added| && added[i] == x;
      assert w'.log[|w.log| + i] == x;
    }
    ContentConcat(run, w.log, added, d0);
    DiffsMean(run, added, Content(run, w.log, d0));
    DiffSqlConcat(Since(log0, w.log), added);
    forall i | 0 <= i < |overrides| ensures Swaps(w'.log, overrides[i].file) == Swaps(w.log, overrides[i].file) {
      assert SameFor(e, w, w', overrides[i].file);
    }
    ThroughSame(run, e, w.log, w'.log, overrides, |overrides|, Content(run, log0, d0));
    RunAllConcat(run, DiffSql(Since(log0, w.log)), DiffSql(added),
                 Through(run, e, w.log, overrides, |overrides|, Content(run, log0, d0)));
  }

  lemma SyncProgresses<D(!new)>(run: (string, D) -> D, d0: D, e: Engine, log0: seq<Entry>, w: World,
      overrides: seq<Override>, checksum: string, k: nat) returns (k': nat)
    requires Distinct(overrides) && AllInOrder(e, w, overrides) && !IsBaseline(e, w) && AllSafe(run, e, overrides)
    requires Progressed(run, d0, e, log0, w, overrides, k)
    ensures Progressed(run, d0, e, log0, Sync(e, w, overrides, checksum).w, overrides, k')
  {
    hide Progressed, Execute, ComputePending, InOrder, AllSafe, AllOrdered;
    k' := k;
    var r := Reads(w, 3);
    ProgressedIdle(run, d0, e, log0, w, r.w, overrides, k);
    PendingIsUnregistered(w.applied, overrides);
    PendingFrom(run, d0, e, log0, w, overrides, k);
    var p := ComputePending(w.applied, overrides);
    if r.ok && p.Some? && AllOrdered(e, p.value) {
      ReadsKeep(e, w, r.w);
      SameEverywhere(e, w, r.w, overrides);
      var inSync := w.snapshot == Some(Snapshot(checksum, e.schema(w.log)));
      if !(inSync && p.value == []) {
        k' := ExecuteProgresses(run, d0, e, log0, r.w, overrides,
                                if inSync then [] else e.diff(w.log, w.snapshot, w.applied), checksum, k);
      }
    }
  }

  lemma PendingFrom<D(!new)>(run: (string, D) -> D, d0: D, e: Engine, log0: seq<Entry>, w: World,
      overrides: seq<Override>, k: nat)
    requires Progressed(run, d0, e, log0, w, overrides, k)
    ensures k <= |overrides| && Unregistered(w.applied, overrides) == overrides[k..]
  {
    hide MeansSoFar, Through, DiffSql, Content, Untouched, PhaseOrdered, Unregistered;
    PendingIsRest(w.applied, overrides, k);
  }

  lemma ExecuteProgresses<D(!new)>(run: (string, D) -> D, d0: D, e: Engine, log0: seq<Entry>, w: World,
      overrides: seq<Override>, diff: seq<string>, checksum: string, k: nat) returns (k': nat)
    requires Distinct(overrides) && AllInOrder(e, w, overrides) && !IsBaseline(e, w) && AllSafe(run, e, overrides)
    requires Progressed(run, d0, e, log0, w, overrides, k) && k <= |overrides| && AllOrdered(e, overrides[k..])
    ensures Progressed(run, d0, e, log0, Execute(e, w, overrides[k..], diff, checksum).w, overrides, k')
  {
    hide Progressed, InOrder, AllSafe, AllOrdered, DiffAndRecord, ApplyAll, RegisterAll, AllStatements, SameForAll;
    var pending := overrides[k..];
    if AllStatements(pending) + diff == [] {
      assert AllStatements(pending) == [];
      NoStatements(pending);
      forall i | k <= i < |overrides|
        ensures overrides[i].statements == [] && Swaps(w.log, overrides[i].file) == []
      {
        assert overrides[i] == pending[i - k];
        EmptyHasNoSwaps(e, w, overrides[i]);
      }
      k' := RegisterAllProgresses(run, d0, e, log0, w, overrides, k, k);
      var r := RegisterAll(w, pending, 0);
      if r.ok { ProgressedIdle(run, d0, e, log0, r.w, RecordState(r.w, checksum, e.schema(w.log)).w, overrides, k'); }
    } else {
      k' := k;
      var b := if e.noTypes(e.schema(w.log)) then Call(w, w) else Step(w, true);
      ProgressedIdle(run, d0, e, log0, w, b.w, overrides, k);
      if b.ok {
        ReadsKeep(e, w, b.w);
        SameEverywhere(e, w, b.w, overrides);
        k' := ApplyAllProgresses(run, d0, e, log0, b.w, overrides, k, k);
        var r := ApplyAll(e, b.w, pending, 0);
        if r.ok {
          DiffAndRecordKeeps(e, r.w, checksum);
          DiffProgresses(run, d0, e, log0, r.w, DiffAndRecord(e, r.w, checksum).w, overrides);
        }
      }
    }
  }

  lemma EmptyHasNoSwaps(e: Engine, w: World, o: Override)
    requires InOrder(e, w, o) && o.statements == []
    ensures Swaps(w.log, o.file) == []
  {
    hide Dml, Swaps, Below, CopyDurable;
    assert Split(o.statements, e.isSwap) == Phases([], []);
  }

  // ----- whole histories -----

  lemma Begin<D(!new)>(run: (string, D) -> D, d0: D, e: Engine, w: World, overrides: seq<Override>)
    requires AllUntouched(e, w, overrides)
    ensures Progressed(run, d0, e, w.log, w, overrides, 0)
  {
    hide Dml, Swaps, Content, OfClass;
    assert Since(w.log, w.log) == [];
    forall i | 0 <= i < |overrides| ensures Untouched(e, w, overrides[i]) {}
    if overrides != [] { FreshMeans(run, d0, e, w, overrides[0]); }
  }

  /** At every point of every history that never begins in baseline mode, the overrides have been
      applied one after the other up to some point, and nothing else has happened to the data. */
  lemma {:induction false} HistoryProgresses<D(!new)>(run: (string, D) -> D, d0: D, e: Engine, w: World,
      overrides: seq<Override>, checksum: string, scripts: seq<seq<Outcome>>) returns (k: nat)
    requires Distinct(overrides) && AllUntouched(e, w, overrides) && AllSafe(run, e, overrides)
    requires NeverBaseline(e, w, overrides, checksum, scripts)
    ensures Progressed(run, d0, e, w.log, History(e, w, overrides, checksum, scripts), overrides, k)
    decreases |scripts|
  {
    hide Progressed, InOrder, AllSafe, Sync, AllUntouched, IsBaseline;
    if scripts == [] {
      Begin(run, d0, e, w, overrides);
      k := 0;
    } else {
      var prior := scripts[..|scripts| - 1];
      forall n | 0 <= n < |prior| ensures !IsBaseline(e, History(e, w, overrides, checksum, prior[..n])) {
        assert prior[..n] == scripts[..n];
      }
      k := HistoryProgresses(run, d0, e, w, overrides, checksum, prior);
      HistoryInOrder(e, w, overrides, checksum, prior);
      var v := History(e, w, overrides, checksum, prior);
      var u := v.(script := scripts[|scripts| - 1]);
      ProgressedIdle(run, d0, e, w.log, v, u, overrides, k);
      ReadsKeep(e, v, u);
      SameEverywhere(e, v, u, overrides);
      assert !IsBaseline(e, v) && IsBaseline(e, u) == IsBaseline(e, v) by {
        ScriptIsNoBaseline(e, v, u, overrides, checksum, scripts, w);
      }
      k := SyncProgresses(run, d0, e, w.log, u, overrides, checksum, k);
    }
  }

  lemma ScriptIsNoBaseline(e: Engine, v: World, u: World, overrides: seq<Override>, checksum: string,
      scripts: seq<seq<Outcome>>, w: World)
    requires scripts != [] && NeverBaseline(e, w, overrides, checksum, scripts)
    requires v == History(e, w, overrides, checksum, scripts[..|scripts| - 1]) && u == v.(script := u.script)
    ensures !IsBaseline(e, v) && !IsBaseline(e, u)
  {
    hide Sync, History;
  }

  /** A registered override that swapped nothing twice means its authored statements. */
  lemma {:induction false} ThroughIsAuthored<D(!new)>(run: (string, D) -> D, e: Engine, w: World,
      overrides: seq<Override>, k: nat, c0: D)
    requires k <= |overrides| && AllInOrder(e, w, overrides)
    requires forall i | 0 <= i < k ::
               overrides[i].file in w.applied && PhaseOrdered(overrides[i].statements, e.isSwap)
                   && NoRepeat(Swaps(w.log, overrides[i].file))
    ensures Through(run, e, w.log, overrides, k, c0) == RunAll(run, AllStatements(overrides[..k]), c0)
  {
    hide OfClass, Climbs, Joining, Below, RunAll, Dml, Swaps, RunAt, Range, CopyDurable, NoRepeat;
    if k > 0 {
      ThroughIsAuthored(run, e, w, overrides, k - 1, c0);
      var o := overrides[k - 1];
      assert InOrder(e, w, o);
      var phases := Split(o.statements, e.isSwap);
      StrictClimb(Swaps(w.log, o.file));
      RunAtRange(run, phases.swap, |phases.swap|, RunAll(run, phases.copy, Through(run, e, w.log, overrides, k - 1, c0)));
      assert phases.swap[..|phases.swap|] == phases.swap;
      RunAllConcat(run, phases.copy, phases.swap, Through(run, e, w.log, overrides, k - 1, c0));
      assert phases.copy + phases.swap == o.statements;
      RunAllConcat(run, AllStatements(overrides[..k - 1]), o.statements, c0);
      assert overrides[..k][..k - 1] == overrides[..k - 1];
    } else {
      EmptyRun(run, c0);
    }
  }

  lemma EmptyRun<D>(run: (string, D) -> D, d: D)
    ensures RunAll(run, [], d) == d
  {
  }

  /** Histories of syncs mean what was authored. However many syncs were cut short, and wherever:
      once every override is registered and none of their swaps ran twice, the data is that of
      running all overrides' statements once, in file and authored order, and then the diff
      statements that were logged; and as long as one is not registered, no diff statement ran. */
  lemma HistoryMeansAuthored<D(!new)>(run: (string, D) -> D, d0: D, e: Engine, w: World,
      overrides: seq<Override>, checksum: string, scripts: seq<seq<Outcome>>)
    requires Distinct(overrides) && AllUntouched(e, w, overrides) && AllSafe(run, e, overrides)
    requires NeverBaseline(e, w, overrides, checksum, scripts)
    ensures var w' := History(e, w, overrides, checksum, scripts);
            && w.log <= w'.log
            && (AllRegistered(w', overrides) && (forall i | 0 <= i < |overrides| :: NoRepeat(Swaps(w'.log, overrides[i].file))) ==>
                  Content(run, w'.log, d0)
                  == RunAll(run, AllStatements(overrides) + DiffSql(Since(w.log, w'.log)), Content(run, w.log, d0)))
            && (!AllRegistered(w', overrides) ==> DiffSql(Since(w.log, w'.log)) == [])
  {
    hide InOrder, AllSafe, History, AllUntouched, NeverBaseline, Through, MeansSoFar, DiffSql, Content, RunAll, Swaps, PhaseOrdered,
         NoRepeat, AllStatements, Untouched;
    var k := HistoryProgresses(run, d0, e, w, overrides, checksum, scripts);
    HistoryInOrder(e, w, overrides, checksum, scripts);
    var w' := History(e, w, overrides, checksum, scripts);
    if AllRegistered(w', overrides) && (forall i | 0 <= i < |overrides| :: NoRepeat(Swaps(w'.log, overrides[i].file))) {
      assert k == |overrides|;
      var c0 := Content(run, w.log, d0);
      ThroughIsAuthored(run, e, w', overrides, k, c0);
      assert overrides[..k] == overrides;
      RunAllConcat(run, AllStatements(overrides), DiffSql(Since(w.log, w'.log)), c0);
    }
  }
}
