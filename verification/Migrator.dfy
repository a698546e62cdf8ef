/** The migrator's loops over the server, proved to do what the functions of `PhaseEngine` and
    `SyncRun` say. */
module MigratorLoops {
  import opened Text
  import opened OverridePhases
  import opened PhaseEngine
  import opened SyncRun

  /** The migrator and the database behind its connection. */
  class Migrator {
    var log: seq<Entry>
    var tx: Option<Tx>
    var progress: map<string, Progress>
    var applied: map<string, Registered>
    var snapshot: Option<Snapshot>
    var script: seq<Outcome>

    ghost function State(): World
      reads this
    {
      World(log, tx, progress, applied, snapshot, script)
    }

    constructor (w: World)
      ensures State() == w
    {
      log, tx, progress, applied, snapshot, script := w.log, w.tx, w.progress, w.applied, w.snapshot, w.script;
    }

    // ----- server calls -----

    method Meet() returns (o: Outcome)
      modifies this`script
      ensures o == NextOutcome(old(State())) && script == Rest(old(State()))
    {
      if script == [] {
        o := Acked;
      } else {
        o, script := script[0], script[1..];
      }
    }

    method Query() returns (ok: bool)
      modifies this`script
      ensures Step(State(), ok) == Call(old(State()), old(State()))
    {
      var o := Meet();
      ok := o == Acked;
    }

    method BeginTransaction() returns (ok: bool)
      modifies this`script, this`tx
      ensures Step(State(), ok) == Call(old(State()), Began(old(State())))
    {
      var o := Meet();
      if o != Refused { tx := Some(Tx(log, false)); }
      ok := o == Acked;
    }

    method ExecuteInTransaction(e: Engine, file: string, index: nat, sql: string) returns (ok: bool)
      requires tx.Some?
      modifies this`script, this`tx, this`log
      ensures Step(State(), ok) == Call(old(State()), CopyRan(e, old(State()), file, index, sql))
    {
      var o := Meet();
      if o != Refused {
        var entry := CopyRun(file, index, sql);
        tx := Some(tx.value.(view := tx.value.view + [entry]));
        if !e.joins(sql) { log := log + [entry]; }
      }
      ok := o == Acked;
    }

    method InsertCopyMarker() returns (ok: bool)
      requires tx.Some?
      modifies this`script, this`tx
      ensures Step(State(), ok) == Call(old(State()), CopyMarked(old(State())))
    {
      var o := Meet();
      if o != Refused { tx := Some(tx.value.(marked := true)); }
      ok := o == Acked;
    }

    method CommitTransaction(file: string) returns (ok: bool)
      requires tx.Some?
      modifies this`script, this`tx, this`log, this`progress
      ensures Step(State(), ok) == Call(old(State()), Committed(old(State()), file))
    {
      var o := Meet();
      if o != Refused {
        if tx.value.marked {
          var p := if file in progress then progress[file] else Progress(false, {});
          progress := progress[file := p.(copyDone := true)];
        }
        log, tx := tx.value.view, None;
      }
      ok := o == Acked;
    }

    method RollbackTransaction()
      modifies this`script, this`tx
      ensures State() == Rollback(old(State())).w
    {
      var o := Meet();
      if o != Refused { tx := None; }
    }

    method ExecuteSwap(file: string, index: nat, sql: string) returns (ok: bool)
      modifies this`script, this`log
      ensures Step(State(), ok) == Call(old(State()), SwapRan(old(State()), file, index, sql))
    {
      var o := Meet();
      if o != Refused { log := log + [SwapRun(file, index, sql)]; }
      ok := o == Acked;
    }

    method MarkSwap(file: string, index: nat) returns (ok: bool)
      modifies this`script, this`progress
      ensures Step(State(), ok) == Call(old(State()), SwapMarked(old(State()), file, index))
    {
      var o := Meet();
      if o != Refused {
        var p := if file in progress then progress[file] else Progress(false, {});
        progress := progress[file := p.(swapDone := p.swapDone + {index})];
      }
      ok := o == Acked;
    }

    method ClearProgress(file: string)
      modifies this`script, this`progress
      ensures State() == Call(old(State()), Cleared(old(State()), file)).w
    {
      var o := Meet();
      if o != Refused { progress := progress - {file}; }
    }

    method RecordOverride(o: Override) returns (ok: bool)
      modifies this`script, this`applied
      ensures Step(State(), ok) == Register(old(State()), o)
    {
      var met := Meet();
      if o.file in applied {
        ok := false;
      } else {
        if met != Refused { applied := applied[o.file := Registered(o.checksum, o.statements)]; }
        ok := met == Acked;
      }
    }

    method ExecuteDiff(sql: string) returns (ok: bool)
      modifies this`script, this`log
      ensures Step(State(), ok) == Call(old(State()), old(State()).(log := old(log) + [DiffRun(sql)]))
    {
      var o := Meet();
      if o != Refused { log := log + [DiffRun(sql)]; }
      ok := o == Acked;
    }

    method WriteSnapshot(checksum: string, state: string) returns (ok: bool)
      modifies this`script, this`snapshot
      ensures Step(State(), ok) == Call(old(State()), old(State()).(snapshot := Some(Snapshot(checksum, state))))
    {
      var o := Meet();
      if o != Refused { snapshot := Some(Snapshot(checksum, state)); }
      ok := o == Acked;
    }

    // ----- the phase engine -----

    method CountAll(n: nat) returns (ok: bool)
      modifies this`script
      ensures Step(State(), ok) == Reads(old(State()), n)
    {
      var i := 0;
      while i < n
        invariant 0 <= i <= n
        invariant Reads(old(State()), n) == Reads(State(), n - i)
      {
        ok := Query();
        if !ok { return false; }
        i := i + 1;
      }
      return true;
    }

    /** Runs and verifies the copy statements; the marker goes in last. */
    method CopyInTransaction(e: Engine, file: string, copy: seq<string>, before: seq<Entry>) returns (ok: bool)
      requires tx.Some?
      modifies this`script, this`tx, this`log
      ensures Step(State(), ok) == CopyBody(e, old(State()), file, copy, before)
    {
      var pairs := e.pairs(copy);
      ok := CountAll(|pairs|);
      if !ok { return; }
      ghost var counted := State();
      var i := 0;
      while i < |copy|
        invariant 0 <= i <= |copy| && tx.Some?
        invariant RunCopy(e, counted, file, copy, 0) == RunCopy(e, State(), file, copy, i)
      {
        ok := ExecuteInTransaction(e, file, i, copy[i]);
        if !ok { return; }
        i := i + 1;
      }
      ghost var copied := State();
      assert RunCopy(e, counted, file, copy, 0) == Step(copied, true);
      i := 0;
      while i < |pairs|
        invariant 0 <= i <= |pairs| && tx.Some?
        invariant VerifyCounts(e, copied, pairs, before, 0) == VerifyCounts(e, State(), pairs, before, i)
      {
        ok := Query();
        if !ok { return; }
        if e.count(pairs[i].target, tx.value.view) < e.count(pairs[i].source, before) { return false; }
        i := i + 1;
      }
      ok := InsertCopyMarker();
    }

    method ApplyCopyPhase(e: Engine, file: string, copy: seq<string>) returns (ok: bool)
      modifies this
      ensures Step(State(), ok) == CopyPhase(e, old(State()), file, copy)
    {
      hide CopyBody;
      var before := log;
      ok := BeginTransaction();
      if !ok { return; }
      ok := CopyInTransaction(e, file, copy, before);
      if !ok {
        RollbackTransaction();
        return false;
      }
      ok := CommitTransaction(file);
    }

    method ApplySwapPhase(file: string, swap: seq<string>, done: set<nat>) returns (ok: bool)
      modifies this`script, this`log, this`progress
      ensures Step(State(), ok) == SwapPhase(old(State()), file, swap, done, 0)
    {
      var i := 0;
      while i < |swap|
        invariant 0 <= i <= |swap|
        invariant SwapPhase(old(State()), file, swap, done, 0) == SwapPhase(State(), file, swap, done, i)
      {
        if i !in done {
          ok := ExecuteSwap(file, i, swap[i]);
          if !ok { return; }
          ok := MarkSwap(file, i);
          if !ok { return; }
        }
        i := i + 1;
      }
      return true;
    }

    method Apply(e: Engine, o: Override) returns (ok: bool)
      modifies this
      ensures Step(State(), ok) == ApplyOverride(e, old(State()), o)
    {
      hide CopyPhase, SwapPhase, OfClass;
      ok := Query();
      if !ok { return; }
      var resume := if o.file in progress then progress[o.file] else Progress(false, {});
      var copy, swap := SplitOverridePhases(o.statements, e.isSwap);
      if copy != [] && !resume.copyDone {
        ok := ApplyCopyPhase(e, o.file, copy);
        if !ok { return; }
      }
      ok := ApplySwapPhase(o.file, swap, resume.swapDone);
      if !ok { return; }
      ok := RecordOverride(o);
      if !ok { return; }
      ClearProgress(o.file);
      return true;
    }

    // ----- a sync -----

    /** The pending overrides, or the reason there is no plan. */
    method Pending(overrides: seq<Override>) returns (r: Option<seq<Override>>)
      ensures r == ComputePending(applied, overrides)
    {
      var checksums := set f | f in applied :: applied[f].checksum;
      var pending := [];
      for i := 0 to |overrides|
        invariant ComputePending(applied, overrides[..i]) == Some(pending)
      {
        var o := overrides[i];
        assert overrides[..i + 1][..i] == overrides[..i];
        assert o.checksum in checksums <==> DuplicatesApplied(applied, o);
        if o.file in applied {
          if applied[o.file].checksum != o.checksum {
            StaysRefused(applied, overrides, i + 1);
            return None;
          }
        } else if o.checksum in checksums {
          StaysRefused(applied, overrides, i + 1);
          return None;
        } else {
          pending := pending + [o];
        }
      }
      assert overrides[..|overrides|] == overrides;
      return Some(pending);
    }

    method RegisterEach(pending: seq<Override>) returns (ok: bool)
      modifies this`script, this`applied
      ensures Step(State(), ok) == RegisterAll(old(State()), pending, 0)
    {
      var i := 0;
      while i < |pending|
        invariant 0 <= i <= |pending|
        invariant RegisterAll(old(State()), pending, 0) == RegisterAll(State(), pending, i)
      {
        ok := RecordOverride(pending[i]);
        if !ok { return; }
        i := i + 1;
      }
      return true;
    }

    method ApplyEach(e: Engine, pending: seq<Override>) returns (ok: bool)
      modifies this
      ensures Step(State(), ok) == ApplyAll(e, old(State()), pending, 0)
    {
      hide ApplyOverride;
      var i := 0;
      while i < |pending|
        invariant 0 <= i <= |pending|
        invariant ApplyAll(e, old(State()), pending, 0) == ApplyAll(e, State(), pending, i)
      {
        ok := Apply(e, pending[i]);
        if !ok { return; }
        i := i + 1;
      }
      return true;
    }

    method Record(checksum: string, state: string) returns (ok: bool)
      modifies this`script, this`snapshot
      ensures Step(State(), ok) == RecordState(old(State()), checksum, state)
    {
      ok := WriteSnapshot(checksum, state);
      if !ok { return; }
      ok := Query();
    }

    method Reconcile(e: Engine, checksum: string) returns (ok: bool)
      modifies this`script, this`log, this`snapshot
      ensures Step(State(), ok) == DiffAndRecord(e, old(State()), checksum)
    {
      ok := CountAll(3);
      if !ok { return; }
      ghost var read := State();
      var alone, batched := SplitOverridePhases(e.diff(log, snapshot, applied), IsBatched);
      var statements := alone + batched;
      var i := 0;
      while i < |statements|
        invariant 0 <= i <= |statements| && snapshot == read.snapshot
        invariant RunDiff(read, statements, 0) == RunDiff(State(), statements, i)
      {
        ok := ExecuteDiff(statements[i]);
        if !ok { return; }
        i := i + 1;
      }
      ok := Query();
      if !ok { return; }
      ok := Record(checksum, e.schema(log));
    }

    /** One sync, however it goes, leaves what `SyncRun.Sync` says. */
    method SyncOnce(e: Engine, overrides: seq<Override>, checksum: string) returns (ok: bool)
      modifies this
      ensures Step(State(), ok) == Sync(e, old(State()), overrides, checksum)
    {
      hide RegisterAll, ApplyAll, DiffAndRecord, RecordState, Reads, OfClass, AllStatements;
      ok := CountAll(3);
      if !ok { return; }
      var actual := e.schema(log);
      var baseline := e.noTypes(actual) && snapshot.None?;
      var planned := Pending(overrides);
      if planned.None? { return false; }
      var pending := planned.value;
      if !baseline {
        var valid := ValidateAll(e, pending);
        if !valid { return false; }
      }
      var inSync := snapshot == Some(Snapshot(checksum, actual));
      if inSync && pending == [] { return true; }
      var diff := if inSync then [] else e.diff(log, snapshot, applied);
      if AllStatements(pending) + diff == [] {
        ok := RegisterEach(pending);
        if !ok { return; }
        ok := Record(checksum, actual);
        return;
      }
      if e.noTypes(actual) {
        ok := Query();
        if !ok { return; }
      }
      if baseline {
        ok := RegisterEach(pending);
      } else {
        ok := ApplyEach(e, pending);
      }
      if !ok { return; }
      ok := Reconcile(e, checksum);
    }
  }

  method ValidateAll(e: Engine, pending: seq<Override>) returns (ok: bool)
    ensures ok == AllOrdered(e, pending)
  {
    hide PhaseOrdered;
    for i := 0 to |pending|
      invariant forall j | 0 <= j < i :: PhaseOrdered(pending[j].statements, e.isSwap)
    {
      var r := ValidatePhaseOrdering(pending[i].statements, e.isSwap);
      if r.Err? { return false; }
    }
    return true;
  }

  lemma {:induction false} StaysRefused(applied: map<string, Registered>, overrides: seq<Override>, n: nat)
    requires n <= |overrides| && ComputePending(applied, overrides[..n]).None?
    ensures ComputePending(applied, overrides).None?
    decreases |overrides| - n
  {
    if n < |overrides| {
      assert overrides[..n + 1][..n] == overrides[..n];
      StaysRefused(applied, overrides, n + 1);
    } else {
      assert overrides[..n] == overrides;
    }
  }
}
