/** A whole sync over a fixed list of overrides, and whole histories of syncs, each cut short
    wherever its script says. */
module SyncRun {
  import opened Text
  import opened OverridePhases
  import opened PhaseEngine
  import Classification

  predicate DuplicatesApplied(applied: map<string, Registered>, o: Override) {
    exists f | f in applied :: applied[f].checksum == o.checksum
  }

  /** The overrides still to run; none when a registered file was edited, or an unregistered one
      repeats the content of a registered one. */
  function ComputePending(applied: map<string, Registered>, overrides: seq<Override>): Option<seq<Override>> {
    if overrides == [] then Some([])
    else
      var o := overrides[|overrides| - 1];
      var p := ComputePending(applied, overrides[..|overrides| - 1]);
      if p.None? then None
      else if o.file in applied then (if applied[o.file].checksum != o.checksum then None else p)
      else if DuplicatesApplied(applied, o) then None
      else Some(p.value + [o])
  }

  function AllStatements(overrides: seq<Override>): seq<string> {
    if overrides == [] then []
    else AllStatements(overrides[..|overrides| - 1]) + overrides[|overrides| - 1].statements
  }

  /** A database without user types and without a snapshot is brand new. */
  predicate IsBaseline(e: Engine, w: World) {
    e.noTypes(e.schema(w.log)) && w.snapshot.None?
  }

  function RegisterAll(w: World, pending: seq<Override>, i: nat): Step
    requires i <= |pending|
    decreases |pending| - i
  {
    if i == |pending| then Step(w, true)
    else
      var r := Register(w, pending[i]);
      if !r.ok then r else RegisterAll(r.w, pending, i + 1)
  }

  function ApplyAll(e: Engine, w: World, pending: seq<Override>, i: nat): Step
    requires i <= |pending|
    decreases |pending| - i
  {
    if i == |pending| then Step(w, true)
    else
      var r := ApplyOverride(e, w, pending[i]);
      if !r.ok then r else ApplyAll(e, r.w, pending, i + 1)
  }

  /** The diff statements; DDL commits as it runs, so a failure leaves a prefix behind. */
  function RunDiff(w: World, statements: seq<string>, i: nat): Step
    requires i <= |statements|
    decreases |statements| - i
  {
    if i == |statements| then Step(w, true)
    else
      var r := Call(w, w.(log := w.log + [DiffRun(statements[i])]));
      if !r.ok then r else RunDiff(r.w, statements, i + 1)
  }

  /** Snapshot, then revision row. */
  function RecordState(w: World, checksum: string, state: string): Step {
    var s := Call(w, w.(snapshot := Some(Snapshot(checksum, state))));
    if !s.ok then s else Call(s.w, s.w)
  }

  /** Whether a diff statement can ride the batch; creating a TimeSeries type cannot. */
  predicate IsBatched(statement: string) {
    !("CREATE TIMESERIES" <= ToUpper(TrimStart(statement)))
  }

  lemma BatchedIff(statement: string)
    ensures IsBatched(statement) <==> !Classification.KeywordAt(TrimStart(statement), "CREATE TIMESERIES", 0)
  {
    hide ToUpper, Classification.KeywordAt;
    NoLowerCase();
    Classification.StartsIff(TrimStart(statement), "CREATE TIMESERIES");
  }

  lemma NoLowerCase()
    ensures Classification.NoLowerCase("CREATE TIMESERIES")
  {
  }

  /** Diff statements in the order they run: those that cannot ride the batch come first. */
  function RunOrder(statements: seq<string>): seq<string> {
    Split(statements, IsBatched).copy + Split(statements, IsBatched).swap
  }

  /** TimeSeries creations first, everything else after them, each in the order of the diff, and
      nothing lost or repeated. */
  lemma RunOrderIs(statements: seq<string>)
    ensures var r := RunOrder(statements);
            && (forall i, j | 0 <= i < j < |r| && IsBatched(r[i]) :: IsBatched(r[j]))
            && (forall b :: OfClass(r, IsBatched, b) == OfClass(statements, IsBatched, b))
            && multiset(r) == multiset(statements)
  {
    hide OfClass, IsBatched;
    var first, rest := OfClass(statements, IsBatched, false), OfClass(statements, IsBatched, true);
    forall b ensures OfClass(first + rest, IsBatched, b) == OfClass(statements, IsBatched, b) {
      OfClassConcat(first, rest, IsBatched, b);
      OfClassAll(first, IsBatched, false);
      OfClassAll(rest, IsBatched, true);
      assert [] + rest == rest && first + [] == first;
    }
    BothClasses(statements);
  }

  lemma {:induction false} BothClasses(statements: seq<string>)
    ensures multiset(OfClass(statements, IsBatched, false)) + multiset(OfClass(statements, IsBatched, true))
            == multiset(statements)
  {
    hide IsBatched;
    if statements != [] {
      var init, last := statements[..|statements| - 1], statements[|statements| - 1];
      BothClasses(init);
      assert statements == init + [last];
    }
  }

  /** Reconcile the post-override state, then record what it became. */
  function DiffAndRecord(e: Engine, w: World, checksum: string): Step {
    var r := Reads(w, 3);
    if !r.ok then r else
    var d := RunDiff(r.w, RunOrder(e.diff(r.w.log, r.w.snapshot, r.w.applied)), 0);
    if !d.ok then d else
    var f := Call(d.w, d.w);
    if !f.ok then f else
    RecordState(f.w, checksum, e.schema(f.w.log))
  }

  predicate AllOrdered(e: Engine, pending: seq<Override>) {
    forall i | 0 <= i < |pending| :: PhaseOrdered(pending[i].statements, e.isSwap)
  }

  /** What is left once the plan is made and is not a no-op. */
  function Execute(e: Engine, w: World, pending: seq<Override>, diff: seq<string>, checksum: string): Step {
    if AllStatements(pending) + diff == [] then
      var r := RegisterAll(w, pending, 0);
      if !r.ok then r else RecordState(r.w, checksum, e.schema(w.log))
    else
      var b := if e.noTypes(e.schema(w.log)) then Call(w, w) else Step(w, true);
      if !b.ok then b else
      var r := if IsBaseline(e, w) then RegisterAll(b.w, pending, 0) else ApplyAll(e, b.w, pending, 0);
      if !r.ok then r else DiffAndRecord(e, r.w, checksum)
  }

  function Sync(e: Engine, w: World, overrides: seq<Override>, checksum: string): Step {
    var r := Reads(w, 3);
    if !r.ok then r else
    var p := ComputePending(w.applied, overrides);
    if p.None? || (!IsBaseline(e, w) && !AllOrdered(e, p.value)) then Step(r.w, false) else
    var inSync := w.snapshot == Some(Snapshot(checksum, e.schema(w.log)));
    if inSync && p.value == [] then Step(r.w, true) else
    Execute(e, r.w, p.value, if inSync then [] else e.diff(w.log, w.snapshot, w.applied), checksum)
  }

  /** The world after a series of syncs, one per script. */
  function History(e: Engine, w: World, overrides: seq<Override>, checksum: string, scripts: seq<seq<Outcome>>): World {
    if scripts == [] then w
    else
      var v := History(e, w, overrides, checksum, scripts[..|scripts| - 1]);
      Sync(e, v.(script := scripts[|scripts| - 1]), overrides, checksum).w
  }
}
