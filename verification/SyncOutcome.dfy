/** What one sync achieves: what it reconciles and records, that an undisturbed one succeeds, and
    that a second one finds nothing to do. */
module SyncOutcome {
  import opened Text
  import opened OverridePhases
  import opened PhaseEngine
  import opened PhaseEngineProofs
  import opened SyncRun
  import opened SyncProofs
  import CopyVerification

  // ----- what an override phase can change -----

  /** The log only grew, and by nothing of the diff. */
  predicate NoDiffSince(log: seq<Entry>, log': seq<Entry>) {
    log <= log' && forall i | |log| <= i < |log'| :: !log'[i].DiffRun?
  }

  lemma NoDiffChain(a: seq<Entry>, b: seq<Entry>, c: seq<Entry>)
    requires NoDiffSince(a, b) && NoDiffSince(b, c)
    ensures NoDiffSince(a, c)
  {
  }

  lemma NoDiffAdded(log: seq<Entry>, added: seq<Entry>)
    requires forall x | x in added :: !x.DiffRun?
    ensures NoDiffSince(log, log + added)
  {
    forall i | |log| <= i < |log + added| ensures !(log + added)[i].DiffRun? { assert (log + added)[i] in added; }
  }

  lemma {:induction false} SwapPhaseFrame(w: World, file: string, swap: seq<string>, done: set<nat>, i: nat)
    requires i <= |swap|
    ensures var r := SwapPhase(w, file, swap, done, i);
            && r.w == w.(log := r.w.log, progress := r.w.progress, script := r.w.script)
            && NoDiffSince(w.log, r.w.log)
    decreases |swap| - i
  {
    hide SwapOne, NoDiffSince;
    SwapOneFrame(w, file, i, if i < |swap| then swap[i] else "");
    if i < |swap| {
      if i in done {
        SwapPhaseFrame(w, file, swap, done, i + 1);
      } else {
        var r := SwapOne(w, file, i, swap[i]);
        if r.ok {
          SwapPhaseFrame(r.w, file, swap, done, i + 1);
          NoDiffChain(w.log, r.w.log, SwapPhase(r.w, file, swap, done, i + 1).w.log);
        }
      }
    }
  }

  lemma SwapOneFrame(w: World, file: string, index: nat, sql: string)
    ensures var r := SwapOne(w, file, index, sql);
            && r.w == w.(log := r.w.log, progress := r.w.progress, script := r.w.script)
            && NoDiffSince(w.log, r.w.log)
    ensures NoDiffSince(w.log, w.log)
  {
  }

  lemma CopyPhaseFrame(e: Engine, w: World, file: string, copy: seq<string>)
    ensures var r := CopyPhase(e, w, file, copy);
            && r.w == w.(log := r.w.log, tx := r.w.tx, progress := r.w.progress, script := r.w.script)
            && NoDiffSince(w.log, r.w.log)
  {
    hide CopyPhase, CopyEntries, AutoEntries, NoDiffSince, Verified;
    var committed, j := CopyPhaseShape(e, w, file, copy);
    var added := if committed then CopyEntries(file, copy, |copy|) else AutoEntries(e, file, copy, j);
    EntriesAbout(e, file, copy, if committed then |copy| else j);
    NoDiffAdded(w.log, added);
  }

  /** An application registers its override or changes no registration, leaves the snapshot, and
      logs nothing of the diff. */
  lemma ApplyFrame(e: Engine, w: World, o: Override)
    ensures var r := ApplyOverride(e, w, o);
            && NoDiffSince(w.log, r.w.log) && r.w.snapshot == w.snapshot
            && (r.w.applied == w.applied
                || (o.file !in w.applied && r.w.applied == w.applied[o.file := Registered(o.checksum, o.statements)]))
            && (r.ok ==> o.file in r.w.applied)
  {
    hide OfClass, CopyPhase, SwapPhase, NoDiffSince, ApplyOverride;
    ApplyIs(e, w, o);
    var phases := Split(o.statements, e.isSwap);
    var s := Call(w, w);
    NothingAdded(w.log);
    if s.ok && phases.copy != [] && !ProgressOf(s.w, o.file).copyDone { CopyPhaseFrame(e, s.w, o.file, phases.copy); }
    var c := AfterCopy(e, w, o);
    if c.ok {
      var done := ProgressOf(w, o.file).swapDone;
      SwapPhaseFrame(c.w, o.file, phases.swap, done, 0);
      NoDiffChain(w.log, c.w.log, SwapPhase(c.w, o.file, phases.swap, done, 0).w.log);
    }
  }

  lemma NothingAdded(log: seq<Entry>)
    ensures NoDiffSince(log, log)
  {
  }

  /** Registrations are only added, and those of `pending` from `i` on. */
  ghost predicate Registers(w: World, w': World, pending: seq<Override>, i: nat)
    requires i <= |pending|
  {
    && (forall f | f in w.applied :: f in w'.applied && w'.applied[f] == w.applied[f])
    && (forall f | f in w'.applied && f !in w.applied ::
          exists j | i <= j < |pending| :: pending[j].file == f
              && w'.applied[f] == Registered(pending[j].checksum, pending[j].statements))
  }

  lemma {:induction false} ApplyAllFrame(e: Engine, w: World, pending: seq<Override>, i: nat)
    requires i <= |pending|
    ensures var r := ApplyAll(e, w, pending, i);
            && NoDiffSince(w.log, r.w.log) && r.w.snapshot == w.snapshot && Registers(w, r.w, pending, i)
            && (r.ok ==> forall j | i <= j < |pending| :: pending[j].file in r.w.applied)
    decreases |pending| - i
  {
    hide ApplyOverride, NoDiffSince;
    NothingAdded(w.log);
    if i < |pending| {
      ApplyFrame(e, w, pending[i]);
      var r := ApplyOverride(e, w, pending[i]);
      if r.ok {
        ApplyAllFrame(e, r.w, pending, i + 1);
        var t := ApplyAll(e, r.w, pending, i + 1);
        NoDiffChain(w.log, r.w.log, t.w.log);
        assert pending[i].file in t.w.applied;
      }
    }
  }

  // ----- what a sync reconciles and records -----

  /** The entries of a list of diff statements. */
  function DiffEntries(statements: seq<string>): (r: seq<Entry>)
    ensures |r| == |statements| && forall i | 0 <= i < |r| :: r[i] == DiffRun(statements[i])
  {
    seq(|statements|, i requires 0 <= i < |statements| => DiffRun(statements[i]))
  }

  lemma {:induction false} RunDiffLogs(w: World, statements: seq<string>, i: nat) returns (m: nat)
    requires i <= |statements|
    ensures i <= m <= |statements|
    ensures var r := RunDiff(w, statements, i);
            && r.w == w.(log := w.log + DiffEntries(statements[i..m]), script := r.w.script)
            && (r.ok ==> m == |statements|)
    decreases |statements| - i
  {
    m := i;
    assert DiffEntries(statements[i..i]) == [] && w.log + [] == w.log;
    if i < |statements| {
      var x := DiffRun(statements[i]);
      var r := Call(w, w.(log := w.log + [x]));
      if NextOutcome(w) != Refused {
        m := i + 1;
        assert DiffEntries(statements[i..i + 1]) == [x];
        if r.ok {
          m := RunDiffLogs(r.w, statements, i + 1);
          assert DiffEntries(statements[i..m]) == [x] + DiffEntries(statements[i + 1..m]);
          Regroup(w.log, [x], DiffEntries(statements[i + 1..m]));
        }
      }
    }
  }

  /** A sync has something to execute: an override statement, or a planned diff statement. */
  predicate HasWork(e: Engine, w: World, overrides: seq<Override>, checksum: string) {
    var p := ComputePending(w.applied, overrides);
    && p.Some?
    && (AllStatements(p.value) != []
        || (w.snapshot != Some(Snapshot(checksum, e.schema(w.log))) && e.diff(w.log, w.snapshot, w.applied) != []))
  }

  /** `log'` extends `log` by override entries up to `post` and then by the first `m` statements of
      the diff of the state at `post`, TimeSeries creations first. */
  predicate Reconciles(e: Engine, w: World, w': World, post: seq<Entry>, m: nat) {
    var statements := RunOrder(e.diff(post, w.snapshot, w'.applied));
    && NoDiffSince(w.log, post) && m <= |statements|
    && w'.log == post + DiffEntries(statements[..m])
  }

  lemma NothingReconciled(e: Engine, w: World, w': World)
    requires NoDiffSince(w.log, w'.log)
    ensures Reconciles(e, w, w', w'.log, 0)
  {
    hide RunOrder;
    assert DiffEntries([]) == [] && w'.log + [] == w'.log;
    assert RunOrder(e.diff(w'.log, w.snapshot, w'.applied))[..0] == [];
  }

  lemma DiffAndRecordDoes(e: Engine, w: World, checksum: string) returns (m: nat)
    ensures var r := DiffAndRecord(e, w, checksum);
            var statements := RunOrder(e.diff(w.log, w.snapshot, w.applied));
            && m <= |statements| && r.w.log == w.log + DiffEntries(statements[..m]) && r.w.applied == w.applied
            && (r.ok ==> m == |statements| && r.w.snapshot == Some(Snapshot(checksum, e.schema(r.w.log))))
            && (m < |statements| ==> r.w.snapshot == w.snapshot)
  {
    hide RunDiff, Reads, RunOrder;
    var statements := RunOrder(e.diff(w.log, w.snapshot, w.applied));
    m := 0;
    assert DiffEntries(statements[..0]) == [] && w.log + [] == w.log;
    var r := Reads(w, 3);
    if r.ok {
      m := RunDiffLogs(r.w, statements, 0);
      assert statements[0..m] == statements[..m];
    }
  }

  /** A sync, however it goes, logs override entries and then a prefix of the diff of what the
      overrides left; it records the new state only after all of that diff ran; and one that
      succeeds ran all of it and recorded exactly the state it ended in. */
  lemma SyncReconciles(e: Engine, w: World, overrides: seq<Override>, checksum: string)
    returns (post: seq<Entry>, m: nat)
    ensures var s := Sync(e, w, overrides, checksum);
            var statements := RunOrder(e.diff(post, w.snapshot, s.w.applied));
            && Reconciles(e, w, s.w, post, m)
            && (s.ok ==> s.w.snapshot == Some(Snapshot(checksum, e.schema(s.w.log))))
            && (HasWork(e, w, overrides, checksum) ==>
                  && (s.ok ==> m == |statements|)
                  && (m < |statements| ==> s.w.snapshot == w.snapshot))
  {
    hide ComputePending, Execute, RunOrder, Reads, NoDiffSince, AllStatements, PhaseOrdered;
    var s := Sync(e, w, overrides, checksum);
    NothingAdded(w.log);
    post, m := s.w.log, 0;
    var r := Reads(w, 3);
    var p := ComputePending(w.applied, overrides);
    var inSync := w.snapshot == Some(Snapshot(checksum, e.schema(w.log)));
    if r.ok && p.Some? && (IsBaseline(e, w) || AllOrdered(e, p.value)) && !(inSync && p.value == []) {
      var planned := if inSync then [] else e.diff(w.log, w.snapshot, w.applied);
      post, m := ExecuteReconciles(e, r.w, p.value, planned, checksum);
    } else {
      NothingReconciled(e, w, s.w);
      NothingPending(e, w, overrides, checksum);
    }
  }

  lemma NothingPending(e: Engine, w: World, overrides: seq<Override>, checksum: string)
    ensures ComputePending(w.applied, overrides) == Some([]) && w.snapshot == Some(Snapshot(checksum, e.schema(w.log)))
            ==> !HasWork(e, w, overrides, checksum)
  {
    hide ComputePending;
  }

  lemma ExecuteReconciles(e: Engine, w: World, pending: seq<Override>, planned: seq<string>, checksum: string)
    returns (post: seq<Entry>, m: nat)
    ensures var s := Execute(e, w, pending, planned, checksum);
            var statements := RunOrder(e.diff(post, w.snapshot, s.w.applied));
            && Reconciles(e, w, s.w, post, m)
            && (s.ok ==> s.w.snapshot == Some(Snapshot(checksum, e.schema(s.w.log))))
            && (AllStatements(pending) != [] || planned != [] ==>
                  && (s.ok ==> m == |statements|)
                  && (m < |statements| ==> s.w.snapshot == w.snapshot))
  {
    hide RunOrder, NoDiffSince, AllStatements, RegisterAll, ApplyAll, DiffAndRecord, Reads;
    var s := Execute(e, w, pending, planned, checksum);
    NothingAdded(w.log);
    RegisterAllShape(w, pending, 0);
    if AllStatements(pending) + planned == [] {
      assert AllStatements(pending) == [] && planned == [];
      post, m := s.w.log, 0;
      NothingReconciled(e, w, s.w);
    } else {
      var b := if e.noTypes(e.schema(w.log)) then Call(w, w) else Step(w, true);
      RegisterAllShape(b.w, pending, 0);
      ApplyAllFrame(e, b.w, pending, 0);
      var r := if IsBaseline(e, w) then RegisterAll(b.w, pending, 0) else ApplyAll(e, b.w, pending, 0);
      if b.ok && r.ok {
        m := DiffAndRecordDoes(e, r.w, checksum);
        post := r.w.log;
      } else {
        post, m := s.w.log, 0;
        NothingReconciled(e, w, s.w);
      }
    }
  }

  // ----- a second sync -----

  lemma {:induction false} AllRegisteredIsNothingPending(applied: map<string, Registered>, overrides: seq<Override>)
    requires forall i | 0 <= i < |overrides| ::
               overrides[i].file in applied && applied[overrides[i].file].checksum == overrides[i].checksum
    ensures ComputePending(applied, overrides) == Some([])
  {
    if overrides != [] {
      var prior := overrides[..|overrides| - 1];
      assert forall i | 0 <= i < |prior| :: prior[i] == overrides[i];
      AllRegisteredIsNothingPending(applied, prior);
    }
  }

  /** What a phase that registers all pending overrides leaves registered. */
  lemma RegistersAll(w: World, w': World, overrides: seq<Override>, pending: seq<Override>)
    requires Distinct(overrides) && ComputePending(w.applied, overrides) == Some(pending)
    requires Registers(w, w', pending, 0) && forall j | 0 <= j < |pending| :: pending[j].file in w'.applied
    ensures forall i | 0 <= i < |overrides| ::
              overrides[i].file in w'.applied && w'.applied[overrides[i].file].checksum == overrides[i].checksum
  {
    PendingIsUnregistered(w.applied, overrides);
    UnregisteredMembers(w.applied, overrides);
    hide ComputePending, Unregistered;
    forall i | 0 <= i < |overrides|
      ensures overrides[i].file in w'.applied && w'.applied[overrides[i].file].checksum == overrides[i].checksum
    {
      var o := overrides[i];
      if o.file !in w.applied {
        assert o in pending;
        var j :| 0 <= j < |pending| && pending[j].file == o.file
            && w'.applied[o.file] == Registered(pending[j].checksum, pending[j].statements);
        assert pending[j] in overrides;
        assert pending[j] == o;
      }
    }
  }

  /** A sync that succeeds leaves every override registered with its content. */
  lemma SyncRegistersAll(e: Engine, w: World, overrides: seq<Override>, checksum: string)
    requires Distinct(overrides) && Sync(e, w, overrides, checksum).ok
    ensures var s := Sync(e, w, overrides, checksum);
            forall i | 0 <= i < |overrides| ::
              overrides[i].file in s.w.applied && s.w.applied[overrides[i].file].checksum == overrides[i].checksum
  {
    hide ComputePending, Execute, Distinct, Reads;
    var r := Reads(w, 3);
    var p := ComputePending(w.applied, overrides);
    var inSync := w.snapshot == Some(Snapshot(checksum, e.schema(w.log)));
    if !(inSync && p.value == []) {
      var planned := if inSync then [] else e.diff(w.log, w.snapshot, w.applied);
      ExecuteRegisters(e, r.w, p.value, planned, checksum);
    }
    RegistersAll(r.w, Sync(e, w, overrides, checksum).w, overrides, p.value);
  }

  lemma ExecuteRegisters(e: Engine, w: World, pending: seq<Override>, planned: seq<string>, checksum: string)
    requires Execute(e, w, pending, planned, checksum).ok
    ensures var s := Execute(e, w, pending, planned, checksum);
            Registers(w, s.w, pending, 0) && forall j | 0 <= j < |pending| :: pending[j].file in s.w.applied
  {
    hide AllStatements, RegisterAll, ApplyAll, DiffAndRecord, NoDiffSince;
    RegisterAllShape(w, pending, 0);
    if AllStatements(pending) + planned != [] {
      var b := if e.noTypes(e.schema(w.log)) then Call(w, w) else Step(w, true);
      RegisterAllShape(b.w, pending, 0);
      ApplyAllFrame(e, b.w, pending, 0);
      var r := if IsBaseline(e, w) then RegisterAll(b.w, pending, 0) else ApplyAll(e, b.w, pending, 0);
      var m := DiffAndRecordDoes(e, r.w, checksum);
    }
  }

  /** After a sync that succeeded, another one over the same overrides and schema changes nothing,
      whatever becomes of its calls, and succeeds if they are answered. */
  lemma SecondSyncIsIdle(e: Engine, w: World, overrides: seq<Override>, checksum: string, script: seq<Outcome>)
    requires Distinct(overrides) && Sync(e, w, overrides, checksum).ok
    ensures var v := Sync(e, w, overrides, checksum).w.(script := script);
            var t := Sync(e, v, overrides, checksum);
            t.w == v.(script := t.w.script) && (script == [] ==> t.ok)
  {
    hide Sync, ComputePending, Reads, Execute;
    var post, m := SyncReconciles(e, w, overrides, checksum);
    SyncRegistersAll(e, w, overrides, checksum);
    var v := Sync(e, w, overrides, checksum).w.(script := script);
    AllRegisteredIsNothingPending(v.applied, overrides);
    if script == [] { AckedReads(v, 3); }
    IdleSync(e, v, overrides, checksum);
  }

  lemma IdleSync(e: Engine, v: World, overrides: seq<Override>, checksum: string)
    requires ComputePending(v.applied, overrides) == Some([])
    requires v.snapshot == Some(Snapshot(checksum, e.schema(v.log)))
    ensures Sync(e, v, overrides, checksum) == Reads(v, 3)
  {
    hide ComputePending, Reads, Execute;
  }

  // ----- an undisturbed application -----

  /** The swap statements from `i` on that no mark says are done, as the log will show them. */
  function Unmarked(file: string, swap: seq<string>, done: set<nat>, i: nat): seq<Entry>
    requires i <= |swap|
    decreases |swap| - i
  {
    if i == |swap| then []
    else (if i in done then [] else [SwapRun(file, i, swap[i])]) + Unmarked(file, swap, done, i + 1)
  }

  predicate CopiesLeft(e: Engine, w: World, o: Override) {
    Split(o.statements, e.isSwap).copy != [] && !ProgressOf(w, o.file).copyDone
  }

  /** What is left of an override: its copy phase unless it is done, and its unmarked swaps. */
  function LeftOf(e: Engine, w: World, o: Override): seq<Entry> {
    var phases := Split(o.statements, e.isSwap);
    (if CopiesLeft(e, w, o) then CopyEntries(o.file, phases.copy, |phases.copy|) else [])
    + Unmarked(o.file, phases.swap, ProgressOf(w, o.file).swapDone, 0)
  }

  /** Once copied, every target holds at least the rows its source held before. */
  predicate CopiesPass(e: Engine, w: World, o: Override) {
    var copy := Split(o.statements, e.isSwap).copy;
    CopiesLeft(e, w, o) ==>
      forall k | 0 <= k < |e.pairs(copy)| ::
        e.count(e.pairs(copy)[k].target, w.log + CopyEntries(o.file, copy, |copy|))
        >= e.count(e.pairs(copy)[k].source, w.log)
  }

  /** The world with the override done: what was left of it logged, its progress gone, and it
      registered. */
  function Done(e: Engine, w: World, o: Override): World {
    w.(log := w.log + LeftOf(e, w, o), tx := if CopiesLeft(e, w, o) then None else w.tx,
       progress := w.progress - {o.file},
       applied := w.applied[o.file := Registered(o.checksum, o.statements)])
  }

  /** An undisturbed copy phase commits exactly when its counts pass, and then logs every copy
      statement and marks the file; otherwise it is rolled back, and nothing is left of it but the
      statements that commit as they run. */
  lemma AckedCopies(e: Engine, w: World, file: string, copy: seq<string>)
    requires w.script == []
    ensures var r := CopyPhase(e, w, file, copy);
            var log := w.log + CopyEntries(file, copy, |copy|);
            && (r.ok <==> Verified(e, e.pairs(copy), w.log, log, 0))
            && (r.ok ==> r.w == w.(log := log, tx := None,
                                   progress := w.progress[file := ProgressOf(w, file).(copyDone := true)]))
            && (!r.ok ==> r.w == w.(log := w.log + AutoEntries(e, file, copy, |copy|), tx := None))
  {
    hide CopyEntries, AutoEntries, Verified, RunCopy, VerifyCounts, Reads;
    EmptyEntries(e, file, copy);
    assert w.log + [] == w.log;
    var b := Call(w, Began(w)).w;
    AckedReads(b, |e.pairs(copy)|);
    CopyVerification.AckedRunCopy(e, b, file, copy, 0);
    var j := RunCopyShape(e, b, file, copy, 0, w.log, w.log);
    var c := RunCopy(e, b, file, copy, 0).w;
    CopyVerification.AckedVerifyCounts(e, c, e.pairs(copy), w.log, 0);
  }

  lemma {:induction false} AckedSwaps(w: World, file: string, swap: seq<string>, done: set<nat>, i: nat)
    requires i <= |swap| && w.script == []
    ensures var r := SwapPhase(w, file, swap, done, i);
            && r.ok && r.w == w.(log := w.log + Unmarked(file, swap, done, i), progress := r.w.progress)
            && r.w.progress - {file} == w.progress - {file}
    decreases |swap| - i
  {
    if i == |swap| {
      assert w.log + [] == w.log;
    } else if i in done {
      AckedSwaps(w, file, swap, done, i + 1);
      assert [] + Unmarked(file, swap, done, i + 1) == Unmarked(file, swap, done, i + 1);
    } else {
      var r := SwapOne(w, file, i, swap[i]);
      AckedSwaps(r.w, file, swap, done, i + 1);
      Regroup(w.log, [SwapRun(file, i, swap[i])], Unmarked(file, swap, done, i + 1));
      assert r.w.progress - {file} == w.progress - {file};
    }
  }

  /** An undisturbed application of an unregistered override, wherever earlier attempts left it,
      succeeds exactly when the counts of its copies pass; then exactly what was left of it has
      run, it is registered, and its progress is gone. When they do not pass, no transaction is
      left open, and only the copies that commit as they run have been logged. */
  lemma ApplySucceedsIff(e: Engine, w: World, o: Override)
    requires w.script == [] && o.file !in w.applied
    ensures var r := ApplyOverride(e, w, o);
            && (r.ok <==> CopiesPass(e, w, o))
            && (r.ok ==> r.w == Done(e, w, o))
            && (!r.ok ==>
                  var copy := Split(o.statements, e.isSwap).copy;
                  r.w == w.(log := w.log + AutoEntries(e, o.file, copy, |copy|), tx := None))
  {
    hide OfClass, CopyPhase, SwapPhase, CopyEntries, AutoEntries, Unmarked, ApplyOverride;
    ApplyIs(e, w, o);
    var phases := Split(o.statements, e.isSwap);
    if CopiesLeft(e, w, o) { AckedCopies(e, w, o.file, phases.copy); }
    var c := AfterCopy(e, w, o);
    if c.ok {
      var done := ProgressOf(w, o.file).swapDone;
      AckedSwaps(c.w, o.file, phases.swap, done, 0);
      assert c.w.progress - {o.file} == w.progress - {o.file};
      var copied := if CopiesLeft(e, w, o) then CopyEntries(o.file, phases.copy, |phases.copy|) else [];
      assert w.log + [] == w.log;
      Regroup(w.log, copied, Unmarked(o.file, phases.swap, done, 0));
    }
  }

  // ----- an undisturbed sync -----

  /** The world with the pending overrides done, in order. */
  function AllDone(e: Engine, w: World, pending: seq<Override>): World {
    if pending == [] then w else Done(e, AllDone(e, w, pending[..|pending| - 1]), pending[|pending| - 1])
  }

  /** The counts of every pending override pass when its turn comes. */
  predicate AllPass(e: Engine, w: World, pending: seq<Override>) {
    forall i | 0 <= i < |pending| :: CopiesPass(e, AllDone(e, w, pending[..i]), pending[i])
  }

  lemma {:induction false} AllDoneIs(e: Engine, w: World, pending: seq<Override>)
    ensures var d := AllDone(e, w, pending);
            && d.script == w.script && d.snapshot == w.snapshot
            && forall f | f in d.applied && f !in w.applied :: exists i | 0 <= i < |pending| :: pending[i].file == f
  {
    hide LeftOf;
    if pending != [] {
      var prior, last := pending[..|pending| - 1], pending[|pending| - 1];
      AllDoneIs(e, w, prior);
      var d := AllDone(e, w, pending);
      forall f | f in d.applied && f !in w.applied ensures exists i | 0 <= i < |pending| :: pending[i].file == f {
        if f == last.file {
          assert pending[|pending| - 1].file == f;
        } else {
          var i :| 0 <= i < |prior| && prior[i].file == f;
          assert pending[i].file == f;
        }
      }
    }
  }

  lemma {:induction false} ApplyAllSucceeds(e: Engine, w: World, pending: seq<Override>, i: nat)
    requires i <= |pending| && w.script == [] && Distinct(pending) && AllPass(e, w, pending)
    requires forall j | 0 <= j < |pending| :: pending[j].file !in w.applied
    ensures ApplyAll(e, AllDone(e, w, pending[..i]), pending, i) == Step(AllDone(e, w, pending), true)
    decreases |pending| - i
  {
    hide ApplyOverride, Done, CopiesPass;
    if i == |pending| {
      assert pending[..i] == pending;
    } else {
      var v := AllDone(e, w, pending[..i]);
      AllDoneIs(e, w, pending[..i]);
      assert pending[i].file !in v.applied;
      assert CopiesPass(e, v, pending[i]);
      ApplySucceedsIff(e, v, pending[i]);
      assert pending[..i + 1][..i] == pending[..i];
      ApplyAllSucceeds(e, w, pending, i + 1);
    }
  }

  /** A sync that nothing disturbs succeeds when its overrides can be listed, are in phase order
      and pass their counts. Outside baseline mode each pending override is then done, in order,
      and after them all of the diff of what they left; in baseline mode they are registered as
      they are, and the diff runs. */
  lemma SyncSucceeds(e: Engine, w: World, overrides: seq<Override>, checksum: string)
    requires w.script == [] && Distinct(overrides) && ComputePending(w.applied, overrides).Some?
    requires var pending := ComputePending(w.applied, overrides).value;
             IsBaseline(e, w) || (AllOrdered(e, pending) && AllPass(e, w, pending))
    ensures var s := Sync(e, w, overrides, checksum);
            var pending := ComputePending(w.applied, overrides).value;
            && s.ok
            && (!HasWork(e, w, overrides, checksum) ==> s.w.log == w.log)
            && (HasWork(e, w, overrides, checksum) ==>
                  var d := if IsBaseline(e, w) then w else AllDone(e, w, pending);
                  && s.w.log == d.log + DiffEntries(RunOrder(e.diff(d.log, w.snapshot, s.w.applied)))
                  && s.w.progress == d.progress)
  {
    hide ComputePending, Execute, RunOrder, Reads, AllStatements, PhaseOrdered, AllPass, AllDone, DiffEntries;
    AckedReads(w, 3);
    PendingIsUnregistered(w.applied, overrides);
    UnregisteredMembers(w.applied, overrides);
    var pending := ComputePending(w.applied, overrides).value;
    var inSync := w.snapshot == Some(Snapshot(checksum, e.schema(w.log)));
    NothingPending(e, w, overrides, checksum);
    if !(inSync && pending == []) {
      var planned := if inSync then [] else e.diff(w.log, w.snapshot, w.applied);
      ExecuteSucceeds(e, w, pending, planned, checksum);
    }
  }

  lemma ExecuteSucceeds(e: Engine, w: World, pending: seq<Override>, planned: seq<string>, checksum: string)
    requires w.script == [] && Distinct(pending) && (IsBaseline(e, w) || AllPass(e, w, pending))
    requires forall o | o in pending :: o.file !in w.applied
    ensures var s := Execute(e, w, pending, planned, checksum);
            && s.ok
            && (AllStatements(pending) == [] && planned == [] ==> s.w.log == w.log)
            && (AllStatements(pending) != [] || planned != [] ==>
                  var d := if IsBaseline(e, w) then w else AllDone(e, w, pending);
                  && s.w.log == d.log + DiffEntries(RunOrder(e.diff(d.log, w.snapshot, s.w.applied)))
                  && s.w.progress == d.progress)
  {
    hide RunOrder, AllStatements, RegisterAll, ApplyAll, DiffAndRecord, Reads, AllPass, DiffEntries;
    RegisterAllShape(w, pending, 0);
    AckedRegisters(w, pending, 0);
    if AllStatements(pending) + planned == [] {
      assert AllStatements(pending) == [] && planned == [];
    } else {
      var b := if e.noTypes(e.schema(w.log)) then Call(w, w) else Step(w, true);
      assert b == Step(w, true);
      if !IsBaseline(e, w) {
        assert pending[..0] == [];
        ApplyAllSucceeds(e, w, pending, 0);
        AllDoneIs(e, w, pending);
      }
      var r := if IsBaseline(e, w) then RegisterAll(w, pending, 0) else ApplyAll(e, w, pending, 0);
      AckedDiffAndRecord(e, r.w, checksum);
    }
  }

  lemma {:induction false} AckedRegisters(w: World, pending: seq<Override>, i: nat)
    requires i <= |pending| && w.script == [] && Distinct(pending)
    requires forall j | i <= j < |pending| :: pending[j].file !in w.applied
    ensures RegisterAll(w, pending, i).ok && RegisterAll(w, pending, i).w.script == []
    decreases |pending| - i
  {
    if i < |pending| {
      var r := Register(w, pending[i]);
      assert r.ok && r.w.script == [];
      AckedRegisters(r.w, pending, i + 1);
    }
  }

  lemma AckedDiffAndRecord(e: Engine, w: World, checksum: string)
    requires w.script == []
    ensures var r := DiffAndRecord(e, w, checksum);
            && r.ok && r.w.applied == w.applied && r.w.progress == w.progress
            && r.w.log == w.log + DiffEntries(RunOrder(e.diff(w.log, w.snapshot, w.applied)))
  {
    hide RunDiff, Reads, RunOrder;
    AckedReads(w, 3);
    var statements := RunOrder(e.diff(w.log, w.snapshot, w.applied));
    AckedRunDiff(w, statements, 0);
    var m := RunDiffLogs(w, statements, 0);
    assert statements[0..m] == statements;
  }
}
