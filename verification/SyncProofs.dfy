/** Safety of whole histories of interrupted syncs. */
module SyncProofs {
  import opened Text
  import opened OverridePhases
  import opened PhaseEngine
  import opened PhaseEngineProofs
  import opened SyncRun
  import Classification

  ghost predicate Distinct(overrides: seq<Override>) {
    forall i, j | 0 <= i < j < |overrides| :: overrides[i].file != overrides[j].file
  }

  ghost predicate AllInOrder(e: Engine, w: World, overrides: seq<Override>) {
    forall i | 0 <= i < |overrides| :: InOrder(e, w, overrides[i])
  }

  /** An override with nothing left to do. */
  ghost predicate Finished(e: Engine, w: World, o: Override) {
    var phases := Split(o.statements, e.isSwap);
    && Dml(e, w.log, o.file) == Joining(e, phases.copy, |phases.copy|)
    && CopyDurable(e, w.log, o.file, phases.copy)
    && Reached(Swaps(w.log, o.file)) == |phases.swap|
  }

  // ----- pending overrides -----

  /** The pending list is the unregistered overrides, in order. */
  function Unregistered(applied: map<string, Registered>, overrides: seq<Override>): seq<Override> {
    if overrides == [] then []
    else
      var o := overrides[|overrides| - 1];
      Unregistered(applied, overrides[..|overrides| - 1]) + (if o.file in applied then [] else [o])
  }

  /** Exactly when no registered file was edited and no unregistered one repeats registered
      content is there a pending list, and it is then the unregistered overrides in order. */
  lemma {:induction false} PendingIsUnregistered(applied: map<string, Registered>, overrides: seq<Override>)
    ensures ComputePending(applied, overrides).Some? <==>
            forall i | 0 <= i < |overrides| ::
              if overrides[i].file in applied then applied[overrides[i].file].checksum == overrides[i].checksum
              else forall f | f in applied :: applied[f].checksum != overrides[i].checksum
    ensures ComputePending(applied, overrides).Some? ==>
              ComputePending(applied, overrides).value == Unregistered(applied, overrides)
  {
    if overrides != [] {
      var prior := overrides[..|overrides| - 1];
      PendingIsUnregistered(applied, prior);
      assert forall i | 0 <= i < |prior| :: prior[i] == overrides[i];
    }
  }

  lemma {:induction false} UnregisteredMembers(applied: map<string, Registered>, overrides: seq<Override>)
    ensures forall o :: o in Unregistered(applied, overrides) <==> o in overrides && o.file !in applied
    ensures Distinct(overrides) ==> Distinct(Unregistered(applied, overrides))
  {
    if overrides != [] {
      var prior := overrides[..|overrides| - 1];
      var last := overrides[|overrides| - 1];
      UnregisteredMembers(applied, prior);
      assert overrides == prior + [last];
      if Distinct(overrides) {
        DistinctPrior(prior, last);
        DistinctSnoc(Unregistered(applied, prior), last);
      }
    }
  }

  lemma DistinctPrior(prior: seq<Override>, last: Override)
    requires Distinct(prior + [last])
    ensures Distinct(prior) && forall o | o in prior :: o.file != last.file
  {
    var all := prior + [last];
    assert forall i | 0 <= i < |prior| :: all[i] == prior[i];
    assert all[|prior|] == last;
  }

  lemma DistinctSnoc(prior: seq<Override>, last: Override)
    requires Distinct(prior) && forall o | o in prior :: o.file != last.file
    ensures Distinct(prior + [last])
  {
  }

  // ----- one sync that is not in baseline mode -----

  lemma InOrderFollows(e: Engine, w: World, w': World, o: Override)
    requires InOrder(e, w, o) && SameFor(e, w, w', o.file)
    ensures InOrder(e, w', o)
  {
    hide OfClass, Dml, Swaps, Climbs, Joining, Below, CopyDurable;
    var copy := Split(o.statements, e.isSwap).copy;
    if CopyDurable(e, w.log, o.file, copy) { UnconcernedKeepsCopies(e, w.log, w'.log, o.file, copy); }
  }

  lemma UnconcernedKeepsCopies(e: Engine, log: seq<Entry>, log': seq<Entry>, file: string, copy: seq<string>)
    requires Unconcerned(log, log', file)
    ensures CopyDurable(e, log', file, copy) <==> CopyDurable(e, log, file, copy)
  {
    hide CopyDurable;
    if CopyDurable(e, log, file, copy) { CopiedStays(e, log, log', file, copy); }
    if CopyDurable(e, log', file, copy) { CopiedBefore(e, log, log', file, copy); }
  }

  lemma {:induction false} ApplyAllKeepsOrder(e: Engine, w: World, overrides: seq<Override>, pending: seq<Override>,
      i: nat)
    requires i <= |pending| && Distinct(overrides) && Distinct(pending) && AllInOrder(e, w, overrides)
    requires forall o | o in pending :: o in overrides
    requires forall j | i <= j < |pending| :: pending[j].file !in w.applied
    ensures AllInOrder(e, ApplyAll(e, w, pending, i).w, overrides)
    ensures ApplyAll(e, w, pending, i).w.snapshot == w.snapshot
    decreases |pending| - i
  {
    hide InOrder, ApplyOverride;
    if i < |pending| {
      var o := pending[i];
      assert o in overrides;
      var r := ApplyOverride(e, w, o);
      ApplyKeepsOrder(e, w, o);
      forall k | 0 <= k < |overrides| ensures InOrder(e, r.w, overrides[k]) {
        if overrides[k].file != o.file {
          assert SameFor(e, w, r.w, overrides[k].file);
          InOrderFollows(e, w, r.w, overrides[k]);
        }
      }
      if r.ok {
        forall j | i + 1 <= j < |pending| ensures pending[j].file !in r.w.applied {
          assert SameFor(e, w, r.w, pending[j].file);
        }
        ApplyAllKeepsOrder(e, r.w, overrides, pending, i + 1);
      }
    }
  }

  ghost predicate SameForAll(e: Engine, w: World, w': World) {
    forall f :: SameFor(e, w, w', f)
  }

  lemma SameForAllChain(e: Engine, a: World, b: World, c: World)
    requires SameForAll(e, a, b) && SameForAll(e, b, c)
    ensures SameForAll(e, a, c)
  {
    forall f ensures SameFor(e, a, c, f) {
      assert SameFor(e, a, b, f) && SameFor(e, b, c, f);
    }
  }

  /** What the log gained are diff statements. */
  predicate DiffOnly(log: seq<Entry>, log': seq<Entry>) {
    log <= log' && forall i | |log| <= i < |log'| :: log'[i].DiffRun?
  }

  lemma DiffRunKeeps(e: Engine, w: World, w': World, sql: string)
    requires w' == w.(log := w'.log, script := w'.script)
    requires w'.log == w.log || w'.log == w.log + [DiffRun(sql)]
    ensures SameForAll(e, w, w') && OverrideEntries(w'.log) == OverrideEntries(w.log) && DiffOnly(w.log, w'.log)
  {
    var x := DiffRun(sql);
    OverrideEntriesSnoc(w.log, x);
    forall f ensures SameFor(e, w, w', f) {
      DmlConcat(e, w.log, [x], f);
      assert Dml(e, [x], f) == [] && Swaps([x], f) == [];
    }
  }

  lemma {:induction false} RunDiffKeeps(e: Engine, w: World, statements: seq<string>, i: nat)
    requires i <= |statements|
    ensures var r := RunDiff(w, statements, i);
            && r.w == w.(log := r.w.log, script := r.w.script)
            && OverrideEntries(r.w.log) == OverrideEntries(w.log)
            && SameForAll(e, w, r.w) && DiffOnly(w.log, r.w.log)
    decreases |statements| - i
  {
    hide OverrideEntries, Dml, Swaps;
    if i < |statements| {
      var r := Call(w, w.(log := w.log + [DiffRun(statements[i])]));
      DiffRunKeeps(e, w, r.w, statements[i]);
      if r.ok {
        RunDiffKeeps(e, r.w, statements, i + 1);
        SameForAllChain(e, w, r.w, RunDiff(w, statements, i).w);
      }
    }
  }

  lemma DiffAndRecordKeeps(e: Engine, w: World, checksum: string)
    ensures var r := DiffAndRecord(e, w, checksum);
            && r.w.applied == w.applied && r.w.progress == w.progress
            && (w.snapshot.Some? ==> r.w.snapshot.Some?)
            && OverrideEntries(r.w.log) == OverrideEntries(w.log)
            && SameForAll(e, w, r.w) && DiffOnly(w.log, r.w.log)
  {
    hide OverrideEntries, Dml, Swaps, RunDiff, Reads, SameForAll, RunOrder;
    var r := Reads(w, 3);
    ReadsKeep(e, w, r.w);
    if r.ok {
      var statements := RunOrder(e.diff(r.w.log, r.w.snapshot, r.w.applied));
      RunDiffKeeps(e, r.w, statements, 0);
      var d := RunDiff(r.w, statements, 0);
      SameForAllChain(e, w, r.w, d.w);
      var last := DiffAndRecord(e, w, checksum).w;
      ReadsKeep(e, d.w, last);
      SameForAllChain(e, w, d.w, last);
    }
  }

  lemma ReadsKeep(e: Engine, w: World, w': World)
    requires w'.log == w.log && w'.progress == w.progress && w'.applied == w.applied
    ensures SameForAll(e, w, w')
  {
    hide Dml, Swaps;
  }

  lemma {:induction false} RegisterAllShape(w: World, pending: seq<Override>, i: nat)
    requires i <= |pending|
    ensures var r := RegisterAll(w, pending, i);
            && r.w == w.(applied := r.w.applied, script := r.w.script)
            && (forall f | f in w.applied :: f in r.w.applied && r.w.applied[f] == w.applied[f])
            && (forall f | f in r.w.applied && f !in w.applied ::
                  exists j | i <= j < |pending| :: pending[j].file == f
                      && r.w.applied[f] == Registered(pending[j].checksum, pending[j].statements))
            && (r.ok ==> forall j | i <= j < |pending| :: pending[j].file in r.w.applied)
    decreases |pending| - i
  {
    hide Register;
    if i < |pending| {
      RegisterShape(w, pending[i]);
      var r := Register(w, pending[i]);
      if r.ok {
        RegisterAllShape(r.w, pending, i + 1);
        var t := RegisterAll(r.w, pending, i + 1);
        assert pending[i].file in t.w.applied;
      }
    }
  }

  lemma RegisterShape(w: World, o: Override)
    ensures var r := Register(w, o);
            && r.w == w.(applied := r.w.applied, script := r.w.script)
            && (forall f | f in w.applied :: f in r.w.applied && r.w.applied[f] == w.applied[f])
            && (forall f | f in r.w.applied && f !in w.applied ::
                  f == o.file && r.w.applied[f] == Registered(o.checksum, o.statements))
            && (r.ok ==> o.file in r.w.applied)
            && (o.file in w.applied ==> r == Step(w.(script := if w.script == [] then [] else w.script[1..]), false))
  {
  }

  lemma {:induction false} NoStatements(pending: seq<Override>)
    requires AllStatements(pending) == []
    ensures forall o | o in pending :: o.statements == []
  {
    if pending != [] {
      NoStatements(pending[..|pending| - 1]);
    }
  }

  /** Registering overrides without statements keeps every override in order. */
  lemma RegisterEmptyKeepsOrder(e: Engine, w: World, overrides: seq<Override>, pending: seq<Override>)
    requires Distinct(overrides) && AllInOrder(e, w, overrides)
    requires forall o | o in pending :: o in overrides && o.statements == []
    ensures AllInOrder(e, RegisterAll(w, pending, 0).w, overrides)
  {
    hide Dml, Swaps, Climbs, Below, RegisterAll, InOrder;
    var w' := RegisterAll(w, pending, 0).w;
    RegisterAllShape(w, pending, 0);
    forall k | 0 <= k < |overrides| ensures InOrder(e, w', overrides[k]) {
      var o := overrides[k];
      assert InOrder(e, w, o);
      if o.file in w'.applied && o.file !in w.applied {
        var j :| 0 <= j < |pending| && pending[j].file == o.file
            && w'.applied[o.file] == Registered(pending[j].checksum, pending[j].statements);
        assert pending[j] in overrides;
        assert pending[j] == o;
        EmptyIsFinished(e, w, o);
        RegisteredAsIs(e, w, w', o);
      } else {
        InOrderFollows(e, w, w', o);
      }
    }
  }

  lemma EmptyIsFinished(e: Engine, w: World, o: Override)
    requires InOrder(e, w, o) && o.statements == []
    ensures Finished(e, w, o)
  {
    hide Dml, Swaps, Climbs, Below;
    assert Split(o.statements, e.isSwap) == Phases([], []);
  }

  /** An override registered as it stands is in order exactly when nothing of it was left. */
  lemma RegisteredAsIs(e: Engine, w: World, w': World, o: Override)
    requires InOrder(e, w, o)
    requires Dml(e, w'.log, o.file) == Dml(e, w.log, o.file) && Swaps(w'.log, o.file) == Swaps(w.log, o.file)
    requires Unconcerned(w.log, w'.log, o.file)
    requires o.file in w'.applied && w'.applied[o.file] == Registered(o.checksum, o.statements)
    ensures InOrder(e, w', o) <==> Finished(e, w, o)
  {
    hide OfClass, Dml, Swaps, Climbs, Below, Joining, CopyDurable, Unconcerned;
    UnconcernedKeepsCopies(e, w.log, w'.log, o.file, Split(o.statements, e.isSwap).copy);
  }

  lemma SameEverywhere(e: Engine, w: World, w': World, overrides: seq<Override>)
    requires AllInOrder(e, w, overrides) && SameForAll(e, w, w')
    ensures AllInOrder(e, w', overrides)
  {
    hide InOrder;
    forall k | 0 <= k < |overrides| ensures InOrder(e, w', overrides[k]) {
      assert SameFor(e, w, w', overrides[k].file);
      InOrderFollows(e, w, w', overrides[k]);
    }
  }

  /** With nothing to execute, overrides without statements are registered and the state recorded. */
  lemma RecordKeepsOrder(e: Engine, w: World, overrides: seq<Override>, pending: seq<Override>, checksum: string)
    requires Distinct(overrides) && AllInOrder(e, w, overrides)
    requires forall o | o in pending :: o in overrides
    requires AllStatements(pending) == []
    ensures var r := RegisterAll(w, pending, 0);
            var s := RecordState(r.w, checksum, e.schema(w.log));
            && AllInOrder(e, r.w, overrides) && AllInOrder(e, s.w, overrides)
            && (w.snapshot.Some? ==> r.w.snapshot.Some? && s.w.snapshot.Some?)
  {
    hide InOrder, RegisterAll, AllStatements;
    NoStatements(pending);
    RegisterEmptyKeepsOrder(e, w, overrides, pending);
    RegisterAllShape(w, pending, 0);
    var r := RegisterAll(w, pending, 0);
    var s := RecordState(r.w, checksum, e.schema(w.log));
    ReadsKeep(e, r.w, s.w);
    SameEverywhere(e, r.w, s.w, overrides);
  }

  /** Otherwise the overrides are applied in turn, and then the diff. */
  lemma ApplyAndDiffKeepOrder(e: Engine, w: World, overrides: seq<Override>, pending: seq<Override>, checksum: string)
    requires Distinct(overrides) && Distinct(pending) && AllInOrder(e, w, overrides)
    requires forall o | o in pending :: o in overrides && o.file !in w.applied
    ensures var b := if e.noTypes(e.schema(w.log)) then Call(w, w) else Step(w, true);
            var r := ApplyAll(e, b.w, pending, 0);
            var d := DiffAndRecord(e, r.w, checksum);
            && AllInOrder(e, b.w, overrides) && b.w.snapshot == w.snapshot
            && AllInOrder(e, r.w, overrides) && r.w.snapshot == w.snapshot
            && AllInOrder(e, d.w, overrides) && (w.snapshot.Some? ==> d.w.snapshot.Some?)
  {
    hide InOrder, DiffAndRecord, ApplyAll;
    var b := if e.noTypes(e.schema(w.log)) then Call(w, w) else Step(w, true);
    ReadsKeep(e, w, b.w);
    SameEverywhere(e, w, b.w, overrides);
    ApplyAllKeepsOrder(e, b.w, overrides, pending, 0);
    var r := ApplyAll(e, b.w, pending, 0);
    DiffAndRecordKeeps(e, r.w, checksum);
    SameEverywhere(e, r.w, DiffAndRecord(e, r.w, checksum).w, overrides);
  }

  lemma ExecuteKeepsOrder(e: Engine, w: World, overrides: seq<Override>, pending: seq<Override>, diff: seq<string>,
      checksum: string)
    requires Distinct(overrides) && AllInOrder(e, w, overrides) && !IsBaseline(e, w)
    requires pending == Unregistered(w.applied, overrides)
    ensures AllInOrder(e, Execute(e, w, pending, diff, checksum).w, overrides)
    ensures w.snapshot.Some? ==> Execute(e, w, pending, diff, checksum).w.snapshot.Some?
  {
    hide InOrder, Unregistered, AllStatements, RegisterAll, DiffAndRecord, ApplyAll;
    UnregisteredMembers(w.applied, overrides);
    if AllStatements(pending) + diff == [] {
      assert AllStatements(pending) == [];
      RecordKeepsOrder(e, w, overrides, pending, checksum);
    } else {
      ApplyAndDiffKeepOrder(e, w, overrides, pending, checksum);
    }
  }

  /** A sync that does not begin in baseline mode keeps every override in order. */
  lemma SyncKeepsOrder(e: Engine, w: World, overrides: seq<Override>, checksum: string)
    requires Distinct(overrides) && AllInOrder(e, w, overrides) && !IsBaseline(e, w)
    ensures AllInOrder(e, Sync(e, w, overrides, checksum).w, overrides)
    ensures w.snapshot.Some? ==> Sync(e, w, overrides, checksum).w.snapshot.Some?
  {
    hide InOrder, Execute, ComputePending;
    var r := Reads(w, 3);
    SameEverywhere(e, w, r.w, overrides);
    PendingIsUnregistered(w.applied, overrides);
    var p := ComputePending(w.applied, overrides);
    if p.Some? {
      var inSync := w.snapshot == Some(Snapshot(checksum, e.schema(w.log)));
      ExecuteKeepsOrder(e, r.w, overrides, p.value, if inSync then [] else e.diff(w.log, w.snapshot, w.applied), checksum);
    }
  }

  // ----- histories -----

  /** No sync of the history begins in baseline mode. */
  ghost predicate NeverBaseline(e: Engine, w: World, overrides: seq<Override>, checksum: string,
      scripts: seq<seq<Outcome>>) {
    forall n | 0 <= n < |scripts| :: !IsBaseline(e, History(e, w, overrides, checksum, scripts[..n]))
  }

  ghost predicate AllUntouched(e: Engine, w: World, overrides: seq<Override>) {
    forall i | 0 <= i < |overrides| ::
      && Dml(e, w.log, overrides[i].file) == [] && Swaps(w.log, overrides[i].file) == []
      && ProgressOf(w, overrides[i].file) == Progress(false, {}) && overrides[i].file !in w.applied
  }

  /** Over every history whose syncs never begin in baseline mode, every override is in order:
      its transactional copies are durable exactly once or not at all, no marker, swap or
      registration comes before a whole verified copy phase, its marked swaps are a prefix, and it
      is registered only after all of both phases ran. */
  lemma {:induction false} HistoryInOrder(e: Engine, w: World, overrides: seq<Override>, checksum: string,
      scripts: seq<seq<Outcome>>)
    requires Distinct(overrides) && AllUntouched(e, w, overrides)
    requires NeverBaseline(e, w, overrides, checksum, scripts)
    ensures AllInOrder(e, History(e, w, overrides, checksum, scripts), overrides)
  {
    if scripts == [] {
      assert Below(0) == {};
    } else {
      var prior := scripts[..|scripts| - 1];
      forall n | 0 <= n < |prior| ensures !IsBaseline(e, History(e, w, overrides, checksum, prior[..n])) {
        assert prior[..n] == scripts[..n];
      }
      HistoryInOrder(e, w, overrides, checksum, prior);
      var v := History(e, w, overrides, checksum, prior);
      var u := v.(script := scripts[|scripts| - 1]);
      assert !IsBaseline(e, v);
      SameEverywhere(e, v, u, overrides);
      SyncKeepsOrder(e, u, overrides, checksum);
    }
  }

  /** Once a snapshot exists, no later sync begins in baseline mode. */
  lemma {:induction false} SnapshotNeverBaseline(e: Engine, w: World, overrides: seq<Override>, checksum: string,
      scripts: seq<seq<Outcome>>)
    requires Distinct(overrides) && AllUntouched(e, w, overrides) && w.snapshot.Some?
    ensures NeverBaseline(e, w, overrides, checksum, scripts)
    ensures AllInOrder(e, History(e, w, overrides, checksum, scripts), overrides)
    ensures History(e, w, overrides, checksum, scripts).snapshot.Some?
  {
    if scripts == [] {
      HistoryInOrder(e, w, overrides, checksum, scripts);
    } else {
      var prior := scripts[..|scripts| - 1];
      SnapshotNeverBaseline(e, w, overrides, checksum, prior);
      var v := History(e, w, overrides, checksum, prior);
      forall n | 0 <= n < |scripts| ensures !IsBaseline(e, History(e, w, overrides, checksum, scripts[..n])) {
        if n < |prior| { assert prior[..n] == scripts[..n]; }
      }
      var u := v.(script := scripts[|scripts| - 1]);
      SameEverywhere(e, v, u, overrides);
      SyncKeepsOrder(e, u, overrides, checksum);
    }
  }

  // ----- baseline mode -----

  /** The entries of a log that an override issued. */
  function OverrideEntries(log: seq<Entry>): seq<Entry> {
    if log == [] then []
    else OverrideEntries(log[..|log| - 1]) + (if log[|log| - 1].DiffRun? then [] else [log[|log| - 1]])
  }

  lemma OverrideEntriesSnoc(log: seq<Entry>, x: Entry)
    ensures OverrideEntries(log + [x]) == OverrideEntries(log) + (if x.DiffRun? then [] else [x])
  {
    assert (log + [x])[..|log|] == log;
  }

  ghost predicate AllRegistered(w: World, overrides: seq<Override>) {
    forall i | 0 <= i < |overrides| :: overrides[i].file in w.applied
  }

  /** A fresh database stays fresh until every override is registered. */
  ghost predicate FreshOrConsumed(e: Engine, w0: World, w: World, overrides: seq<Override>) {
    && OverrideEntries(w.log) == OverrideEntries(w0.log)
    && (AllRegistered(w, overrides) || (w.log == w0.log && w.snapshot.None?))
  }

  lemma RegisterAllConsumes(w: World, overrides: seq<Override>, pending: seq<Override>)
    requires pending == Unregistered(w.applied, overrides)
    ensures RegisterAll(w, pending, 0).ok ==> AllRegistered(RegisterAll(w, pending, 0).w, overrides)
    ensures AllRegistered(w, overrides) ==> AllRegistered(RegisterAll(w, pending, 0).w, overrides) && pending == []
  {
    hide RegisterAll;
    UnregisteredMembers(w.applied, overrides);
    RegisterAllShape(w, pending, 0);
    var r := RegisterAll(w, pending, 0);
    assert pending != [] ==> pending[0] in overrides;
    if r.ok {
      forall i | 0 <= i < |overrides| ensures overrides[i].file in r.w.applied {
        if overrides[i].file !in w.applied {
          assert overrides[i] in pending;
        }
      }
    }
  }

  lemma ExecuteStaysFresh(e: Engine, w0: World, w: World, overrides: seq<Override>, pending: seq<Override>,
      diff: seq<string>, checksum: string)
    requires e.noTypes(e.schema(w0.log)) && FreshOrConsumed(e, w0, w, overrides)
    requires pending == Unregistered(w.applied, overrides)
    ensures FreshOrConsumed(e, w0, Execute(e, w, pending, diff, checksum).w, overrides)
  {
    hide DiffAndRecord, RegisterAll, Unregistered, OverrideEntries;
    RegisterAllConsumes(w, overrides, pending);
    RegisterAllShape(w, pending, 0);
    if AllStatements(pending) + diff != [] {
      var b := if e.noTypes(e.schema(w.log)) then Call(w, w) else Step(w, true);
      if b.ok {
        RegisterAllConsumes(b.w, overrides, pending);
        RegisterAllShape(b.w, pending, 0);
        var r := if IsBaseline(e, w) then RegisterAll(b.w, pending, 0) else ApplyAll(e, b.w, pending, 0);
        assert !IsBaseline(e, w) ==> r == Step(b.w, true);
        if r.ok {
          DiffAndRecordKeeps(e, r.w, checksum);
        }
      }
    }
  }

  /** Over every history that starts with no user types and no snapshot, no statement of any
      override is ever executed: all are registered before the first diff statement runs. */
  lemma {:induction false} BaselineExecutesNothing(e: Engine, w: World, overrides: seq<Override>, checksum: string,
      scripts: seq<seq<Outcome>>)
    requires IsBaseline(e, w)
    ensures FreshOrConsumed(e, w, History(e, w, overrides, checksum, scripts), overrides)
  {
    hide OverrideEntries, Execute, ComputePending;
    if scripts != [] {
      var prior := scripts[..|scripts| - 1];
      BaselineExecutesNothing(e, w, overrides, checksum, prior);
      var v := History(e, w, overrides, checksum, prior);
      var u := v.(script := scripts[|scripts| - 1]);
      var r := Reads(u, 3);
      PendingIsUnregistered(u.applied, overrides);
      var p := ComputePending(u.applied, overrides);
      if p.Some? {
        var inSync := u.snapshot == Some(Snapshot(checksum, e.schema(u.log)));
        ExecuteStaysFresh(e, w, r.w, overrides, p.value, if inSync then [] else e.diff(u.log, u.snapshot, u.applied), checksum);
      }
    }
  }

  // ----- where the order is lost -----

  /** Nothing of `o` changed but, perhaps, that it is registered, as it stands. */
  predicate AsItStands(e: Engine, w: World, w': World, o: Override) {
    && Dml(e, w'.log, o.file) == Dml(e, w.log, o.file) && Swaps(w'.log, o.file) == Swaps(w.log, o.file)
    && Unconcerned(w.log, w'.log, o.file) && ProgressOf(w', o.file) == ProgressOf(w, o.file)
    && (o.file in w'.applied ==> w'.applied[o.file] == Registered(o.checksum, o.statements))
  }

  /** A sync that begins in baseline mode registers pending overrides without running them,
      whatever becomes of its calls. An override that an earlier attempt left half done stays in
      order exactly when it is not registered or nothing of it was left to do; a sync that
      succeeds does register it. */
  lemma BaselineAbandons(e: Engine, w: World, overrides: seq<Override>, checksum: string, o: Override)
    requires Distinct(overrides) && o in overrides && InOrder(e, w, o) && o.file !in w.applied && IsBaseline(e, w)
    ensures var s := Sync(e, w, overrides, checksum);
            && (InOrder(e, s.w, o) <==> (o.file in s.w.applied ==> Finished(e, w, o)))
            && (s.ok ==> o.file in s.w.applied)
            && Swaps(s.w.log, o.file) == Swaps(w.log, o.file)
  {
    hide InOrder, Finished, ComputePending, Execute, Dml, Swaps, Unconcerned;
    var s := Sync(e, w, overrides, checksum);
    var r := Reads(w, 3);
    PendingIsUnregistered(w.applied, overrides);
    UnregisteredMembers(w.applied, overrides);
    assert AsItStands(e, w, r.w, o) by { NothingLogged(w.log, o.file); }
    var p := ComputePending(w.applied, overrides);
    if p.Some? {
      assert o in p.value;
      var inSync := w.snapshot == Some(Snapshot(checksum, e.schema(w.log)));
      BaselineExecutes(e, r.w, overrides, p.value, if inSync then [] else e.diff(w.log, w.snapshot, w.applied), checksum, o);
    }
    assert AsItStands(e, w, s.w, o);
    if o.file in s.w.applied { RegisteredAsIs(e, w, s.w, o); } else { InOrderFollows(e, w, s.w, o); }
  }

  lemma NothingLogged(log: seq<Entry>, file: string)
    ensures Unconcerned(log, log, file)
  {
  }

  lemma BaselineExecutes(e: Engine, w: World, overrides: seq<Override>, pending: seq<Override>, diff: seq<string>,
      checksum: string, o: Override)
    requires Distinct(overrides) && o in overrides && o.file !in w.applied
    requires IsBaseline(e, w) && pending == Unregistered(w.applied, overrides)
    ensures var s := Execute(e, w, pending, diff, checksum);
            AsItStands(e, w, s.w, o) && (s.ok ==> o.file in s.w.applied)
  {
    hide Dml, Swaps, RegisterAll, DiffAndRecord, AllStatements, Unregistered, Unconcerned;
    UnregisteredMembers(w.applied, overrides);
    NothingLogged(w.log, o.file);
    if AllStatements(pending) + diff == [] {
      RegistersAsItStands(e, w, overrides, pending, o);
    } else {
      var b := if e.noTypes(e.schema(w.log)) then Call(w, w) else Step(w, true);
      if b.ok {
        RegistersAsItStands(e, b.w, overrides, pending, o);
        var r := RegisterAll(b.w, pending, 0);
        if r.ok {
          DiffAndRecordKeeps(e, r.w, checksum);
          assert SameFor(e, r.w, DiffAndRecord(e, r.w, checksum).w, o.file);
        }
      }
    }
  }

  lemma RegistersAsItStands(e: Engine, w: World, overrides: seq<Override>, pending: seq<Override>, o: Override)
    requires Distinct(overrides) && o in overrides && o.file !in w.applied && o in pending
    requires forall p | p in pending :: p in overrides
    ensures var r := RegisterAll(w, pending, 0);
            && AsItStands(e, w, r.w, o) && r.w.log == w.log
            && (r.ok ==> o.file in r.w.applied)
  {
    hide Dml, Swaps, RegisterAll, Unconcerned;
    NothingLogged(w.log, o.file);
    RegisterAllShape(w, pending, 0);
    var r := RegisterAll(w, pending, 0);
    if o.file in r.w.applied {
      var j :| 0 <= j < |pending| && pending[j].file == o.file
          && r.w.applied[o.file] == Registered(pending[j].checksum, pending[j].statements);
      assert pending[j] in overrides;
      assert pending[j] == o;
    }
  }

  lemma {:induction false} AckedReads(w: World, n: nat)
    requires w.script == []
    ensures Reads(w, n) == Step(w, true)
  {
    if n > 0 { AckedReads(w, n - 1); }
  }

  /** What is left of a database that holds the one type `Old`. */
  function Remaining(log: seq<Entry>): string {
    if log == [] then "Old"
    else if Classification.DroppedTypeName(log[|log| - 1].sql) == Some("Old") then ""
    else Remaining(log[..|log| - 1])
  }

  /** A database whose only type is `Old`, under the migrator's own classifier and pairs. */
  function OldEngine(): Engine {
    Engine(s => Classification.IsDestructive(s), s => false, s => Classification.VerificationPairs(s), (t, l) => 0,
           l => Remaining(l), t => t == "", (l, s, a) => [])
  }

  const EXISTING := World([], None, map[], map[], None, [])

  const DROP_TYPE := "DROP TYPE Old"

  const DROP_BUCKET := "DROP BUCKET Old_0"

  lemma DropIsDestructive(rest: string)
    ensures Classification.IsDestructive("DROP " + rest)
  {
    hide ToUpper, Contains;
    var s := "DROP " + rest;
    assert TrimStart(s) == s;
    var t := ToUpper(s);
    assert t[..5] == "DROP ";
  }

  /** Both statements are destructive, and the first one removes the database's only type. */
  lemma DropsAreDestructive()
    ensures Classification.IsDestructive(DROP_TYPE) && Classification.IsDestructive(DROP_BUCKET)
    ensures Classification.DroppedTypeName(DROP_TYPE) == Some("Old")
  {
    hide Words, Classification.IsDestructive, Classification.DroppedTypeName;
    DropIsDestructive("TYPE Old");
    DropIsDestructive("BUCKET Old_0");
    assert DROP_TYPE == "DROP " + "TYPE Old" && DROP_BUCKET == "DROP " + "BUCKET Old_0";
    DropsOld();
  }

  lemma DropsOld()
    ensures Classification.DroppedTypeName(DROP_TYPE) == Some("Old")
  {
    hide Words, ToUpper;
    DropTypeWords();
    UpperWords();
  }

  lemma UpperWords()
    ensures Classification.Same("DROP", "DROP") && Classification.Same("TYPE", "TYPE")
    ensures !Classification.Same("TYPE", "TIMESERIES") && !Classification.Same("Old", "IF")
  {
  }

  lemma DropTypeWords()
    ensures Words(DROP_TYPE) == ["DROP", "TYPE", "Old"]
  {
    hide Words;
    var w := ["DROP", "TYPE", "Old"];
    TokensOf(w);
    assert w[1..] == ["TYPE", "Old"] && w[1..][1..] == ["Old"];
    assert Spaced(["TYPE", "Old"]) == "TYPE" + " " + "Old";
    assert Spaced(w) == DROP_TYPE;
  }

  /** The loss is reachable. A database that was never synced holds the type `Old`; an override
      drops it, and the runner dies before the next statement. The next sync finds no types and
      no snapshot, takes the database for a fresh one, and registers the override, whose second
      statement never runs. */
  lemma BaselineAbandonsReachably(file: string, hash: string, checksum: string)
    ensures var e := OldEngine();
            var o := Override(file, hash, [DROP_TYPE, DROP_BUCKET]);
            var died := [Acked, Acked, Acked, Acked, Acked, Acked, Refused];
            var w := History(e, EXISTING, [o], checksum, [died, []]);
            && !IsBaseline(e, EXISTING) && AllUntouched(e, EXISTING, [o])
            && o.file in w.applied && Swaps(w.log, o.file) == [0] && |Split(o.statements, e.isSwap).swap| == 2
            && !InOrder(e, w, o)
  {
    var e := OldEngine();
    var o := Override(file, hash, [DROP_TYPE, DROP_BUCKET]);
    var died := [Acked, Acked, Acked, Acked, Acked, Acked, Refused];
    hide Sync, InOrder, Finished, OfClass, Dml, Swaps, Classification.IsDestructive, Classification.DroppedTypeName, ComputePending;
    DropsAreDestructive();
    AllSwap(e, DROP_TYPE, DROP_BUCKET);
    DiesAfterFirstSwap(o, checksum);
    var v := Sync(e, EXISTING.(script := died), [o], checksum).w;
    var u := v.(script := []);
    TwoSyncs(e, EXISTING, [o], checksum, died);
    HalfDone(e, u, o, DROP_TYPE, DROP_BUCKET);
    assert u.log[..0] == [];
    BaselineAbandons(e, u, [o], checksum, o);
    AckedBaselineRegisters(e, u, o, checksum);
    NothingRanYet(e, o);
  }

  /** An undisturbed baseline sync of a single unregistered override succeeds. */
  lemma AckedBaselineRegisters(e: Engine, w: World, o: Override, checksum: string)
    requires IsBaseline(e, w) && w.script == [] && w.applied == map[]
    ensures Sync(e, w, [o], checksum).ok
  {
    AckedReads(w, 3);
    assert [o][..0] == [];
    assert ComputePending(map[], []) == Some([]);
    assert ComputePending(map[], [o]) == Some([] + [o]);
    assert [] + [o] == [o];
    AckedRegisterAll(w, o);
    var r := RegisterAll(w, [o], 0);
    AckedReads(r.w, 3);
    AckedRunDiff(r.w, RunOrder(e.diff(r.w.log, r.w.snapshot, r.w.applied)), 0);
  }

  lemma AckedRegisterAll(w: World, o: Override)
    requires w.script == [] && o.file !in w.applied
    ensures RegisterAll(w, [o], 0).ok && RegisterAll(w, [o], 0).w.script == []
  {
    assert RegisterAll(Register(w, o).w, [o], 1) == Step(Register(w, o).w, true);
  }

  lemma {:induction false} AckedRunDiff(w: World, statements: seq<string>, i: nat)
    requires i <= |statements| && w.script == []
    ensures RunDiff(w, statements, i).ok && RunDiff(w, statements, i).w.script == []
    decreases |statements| - i
  {
    if i < |statements| {
      AckedRunDiff(Call(w, w.(log := w.log + [DiffRun(statements[i])])).w, statements, i + 1);
    }
  }

  lemma NothingRanYet(e: Engine, o: Override)
    ensures Dml(e, [], o.file) == [] && Swaps([], o.file) == []
  {
  }

  lemma TwoSyncs(e: Engine, w: World, overrides: seq<Override>, checksum: string, script: seq<Outcome>)
    ensures History(e, w, overrides, checksum, [script, []]) ==
            Sync(e, Sync(e, w.(script := script), overrides, checksum).w.(script := []), overrides, checksum).w
  {
    hide Sync;
    assert [script, []][..1] == [script] && [script][..0] == [];
    assert History(e, w, overrides, checksum, []) == w;
  }

  lemma AllSwap(e: Engine, a: string, b: string)
    requires e.isSwap(a) && e.isSwap(b)
    ensures Split([a, b], e.isSwap) == Phases([], [a, b])
  {
    assert [a, b][..1] == [a];
    assert OfClass([a], e.isSwap, true) == [a] && OfClass([a], e.isSwap, false) == [];
  }

  /** What the first attempt leaves behind. */
  predicate LeftHalfDone(w: World, o: Override, a: string) {
    && w.log == [SwapRun(o.file, 0, a)] && w.applied == map[] && w.snapshot.None?
    && ProgressOf(w, o.file) == Progress(false, {0})
  }

  lemma DiesAfterFirstSwap(o: Override, checksum: string)
    requires o.statements == [DROP_TYPE, DROP_BUCKET]
    ensures LeftHalfDone(Sync(OldEngine(), EXISTING.(script := [Acked, Acked, Acked, Acked, Acked, Acked, Refused]),
        [o], checksum).w, o, DROP_TYPE)
  {
    hide Classification.IsDestructive, Classification.DroppedTypeName, LeftHalfDone, ApplyOverride, Split, Reads,
         ComputePending, AllStatements;
    var e := OldEngine();
    DropsAreDestructive();
    AllSwap(e, DROP_TYPE, DROP_BUCKET);
    ThreeReads();
    var w3 := EXISTING.(script := [Acked, Acked, Acked, Refused]);
    OnePending(o);
    var stopped := SwapsStop(e, o, DROP_TYPE, DROP_BUCKET);
    assert ApplyAll(e, w3, [o], 0) == stopped;
  }

  lemma OnePending(o: Override)
    ensures ComputePending(map[], [o]) == Some([o]) && AllStatements([o]) == o.statements
  {
    assert [o][..0] == [];
    assert ComputePending(map[], []) == Some([]);
    assert [] + [o] == [o];
  }

  lemma ThreeReads()
    ensures Reads(EXISTING.(script := [Acked, Acked, Acked, Acked, Acked, Acked, Refused]), 3)
            == Step(EXISTING.(script := [Acked, Acked, Acked, Refused]), true)
  {
    var w3 := EXISTING.(script := [Acked, Acked, Acked, Refused]);
    assert Reads(EXISTING.(script := [Acked, Acked, Acked, Acked, Refused]), 1) == Step(w3, true);
    assert Reads(EXISTING.(script := [Acked, Acked, Acked, Acked, Acked, Refused]), 2) == Step(w3, true);
  }

  /** The first statement runs and is marked, and then nothing more does. */
  lemma SwapsStop(e: Engine, o: Override, a: string, b: string) returns (stopped: Step)
    requires o.statements == [a, b] && Split([a, b], e.isSwap) == Phases([], [a, b])
    ensures ApplyOverride(e, EXISTING.(script := [Acked, Acked, Acked, Refused]), o) == stopped
    ensures !stopped.ok && LeftHalfDone(stopped.w, o, a)
  {
    hide Split;
    var w := EXISTING.(script := [Acked, Acked, Refused]);
    var first := SwapOne(w, o.file, 0, a);
    assert first.ok && first.w.script == [Refused] && LeftHalfDone(first.w, o, a);
    stopped := SwapOne(first.w, o.file, 1, b);
    assert !stopped.ok && LeftHalfDone(stopped.w, o, a);
    assert SwapPhase(first.w, o.file, [a, b], {}, 1) == stopped;
    assert SwapPhase(w, o.file, [a, b], {}, 0) == stopped;
  }

  lemma HalfDone(e: Engine, w: World, o: Override, a: string, b: string)
    requires o.statements == [a, b] && Split([a, b], e.isSwap) == Phases([], [a, b]) && LeftHalfDone(w, o, a)
    ensures InOrder(e, w, o) && !Finished(e, w, o) && Swaps(w.log, o.file) == [0]
  {
    assert [SwapRun(o.file, 0, a)][..0] == [];
    assert Dml(e, [], o.file) == [] && Swaps([], o.file) == [];
    assert Below(1) == {0};
  }
}
