/** The override phase engine as a function of the world and of what becomes of each server
    call. A world holds everything that survives a crash (the durable statement log, progress
    rows, registry, snapshot), the open transaction, and the script of outcomes the coming calls
    will meet. Ranging over all scripts ranges over every crash and every failure. */
module PhaseEngine {
  import opened Text
  import opened OverridePhases
  import Classification

  // ----- the server -----

  /** One statement that took effect, with its place in the override that issued it. */
  datatype Entry =
    | CopyRun(file: string, index: nat, sql: string)
    | SwapRun(file: string, index: nat, sql: string)
    | DiffRun(sql: string)

  /** What becomes of a server call: it takes effect and the caller learns so; it has no effect
      and the caller gets an error; or it takes effect and the caller never hears. A runner that
      dies is one whose remaining calls are all refused. */
  datatype Outcome = Acked | Refused | Lost

  /** The open transaction: the log as it sees it, and whether the copy marker is in it. */
  datatype Tx = Tx(view: seq<Entry>, marked: bool)

  datatype Progress = Progress(copyDone: bool, swapDone: set<nat>)

  datatype Registered = Registered(checksum: string, statements: seq<string>)

  datatype Snapshot = Snapshot(checksum: string, state: string)

  datatype World = World(
    log: seq<Entry>,
    tx: Option<Tx>,
    progress: map<string, Progress>,
    applied: map<string, Registered>,
    snapshot: Option<Snapshot>,
    script: seq<Outcome>)

  /** What the model leaves to the database and to the rest of the migrator: the classifier, which
      copy statements join the transaction (record DML) rather than commit as they run (DDL and
      MOVE VERTEX), the verification pairs, row counts, the introspected schema and the diff. */
  datatype Engine = Engine(
    isSwap: string -> bool,
    joins: string -> bool,
    pairs: seq<string> -> seq<Classification.CopyPair>,
    count: (string, seq<Entry>) -> int,
    schema: seq<Entry> -> string,
    noTypes: string -> bool,
    diff: (seq<Entry>, Option<Snapshot>, map<string, Registered>) -> seq<string>)

  datatype Step = Step(w: World, ok: bool)

  function NextOutcome(w: World): Outcome {
    if w.script == [] then Acked else w.script[0]
  }

  function Rest(w: World): seq<Outcome> {
    if w.script == [] then [] else w.script[1..]
  }

  /** A call whose effect, if it has one, turns `w` into `effect`. */
  function Call(w: World, effect: World): Step {
    match NextOutcome(w)
    case Acked => Step(effect.(script := Rest(w)), true)
    case Lost => Step(effect.(script := Rest(w)), false)
    case Refused => Step(w.(script := Rest(w)), false)
  }

  function ProgressOf(w: World, file: string): Progress {
    if file in w.progress then w.progress[file] else Progress(false, {})
  }

  // ----- effects of the calls -----

  function Began(w: World): World {
    w.(tx := Some(Tx(w.log, false)))
  }

  /** A copy statement in the transaction: record DML stays in it, everything else is durable
      at once. */
  function CopyRan(e: Engine, w: World, file: string, index: nat, sql: string): World
    requires w.tx.Some?
  {
    var entry := CopyRun(file, index, sql);
    var seen := w.(tx := Some(w.tx.value.(view := w.tx.value.view + [entry])));
    if e.joins(sql) then seen else seen.(log := w.log + [entry])
  }

  function CopyMarked(w: World): World
    requires w.tx.Some?
  {
    w.(tx := Some(w.tx.value.(marked := true)))
  }

  /** Commit makes the transaction's view durable, and with it the marker if it is there. */
  function Committed(w: World, file: string): World
    requires w.tx.Some?
  {
    w.(log := w.tx.value.view, tx := None,
       progress := if w.tx.value.marked then w.progress[file := ProgressOf(w, file).(copyDone := true)] else w.progress)
  }

  function SwapRan(w: World, file: string, index: nat, sql: string): World {
    w.(log := w.log + [SwapRun(file, index, sql)])
  }

  function SwapMarked(w: World, file: string, index: nat): World {
    var p := ProgressOf(w, file);
    w.(progress := w.progress[file := p.(swapDone := p.swapDone + {index})])
  }

  function Cleared(w: World, file: string): World {
    w.(progress := w.progress - {file})
  }

  // ----- the engine -----

  function Rollback(w: World): Step {
    Step(Call(w, w.(tx := None)).w, false)
  }

  /** `n` calls that only read. */
  function Reads(w: World, n: nat): (r: Step)
    ensures r.w == w.(script := r.w.script)
    decreases n
  {
    if n == 0 then Step(w, true)
    else
      var r := Call(w, w);
      if !r.ok then r else Reads(r.w, n - 1)
  }

  function RunCopy(e: Engine, w: World, file: string, copy: seq<string>, i: nat): (r: Step)
    requires w.tx.Some? && i <= |copy|
    ensures r.w.tx.Some?
    decreases |copy| - i
  {
    if i == |copy| then Step(w, true)
    else
      var r := Call(w, CopyRan(e, w, file, i, copy[i]));
      if !r.ok then r else RunCopy(e, r.w, file, copy, i + 1)
  }

  /** Every copied type must hold at least the rows its source held before the copy. */
  function VerifyCounts(e: Engine, w: World, pairs: seq<Classification.CopyPair>, before: seq<Entry>, i: nat): (r: Step)
    requires w.tx.Some? && i <= |pairs|
    ensures r.w == w.(script := r.w.script)
    decreases |pairs| - i
  {
    if i == |pairs| then Step(w, true)
    else
      var r := Call(w, w);
      if !r.ok then r
      else if e.count(pairs[i].target, w.tx.value.view) < e.count(pairs[i].source, before) then Step(r.w, false)
      else VerifyCounts(e, r.w, pairs, before, i + 1)
  }

  /** Everything between begin and commit: source counts, the statements, the verification and
      the marker. Any failure here is followed by a rollback. */
  function CopyBody(e: Engine, w: World, file: string, copy: seq<string>, before: seq<Entry>): (r: Step)
    requires w.tx.Some?
    ensures r.w.tx.Some?
  {
    var pairs := e.pairs(copy);
    var s := Reads(w, |pairs|);
    if !s.ok then s else
    var c := RunCopy(e, s.w, file, copy, 0);
    if !c.ok then c else
    var v := VerifyCounts(e, c.w, pairs, before, 0);
    if !v.ok then v else
    Call(v.w, CopyMarked(v.w))
  }

  function CopyPhase(e: Engine, w: World, file: string, copy: seq<string>): Step {
    var b := Call(w, Began(w));
    if !b.ok then b else
    var c := CopyBody(e, b.w, file, copy, w.log);
    if !c.ok then Rollback(c.w) else
    Call(c.w, Committed(c.w, file))
  }

  /** One swap statement, marked right after it ran. */
  function SwapOne(w: World, file: string, index: nat, sql: string): Step {
    var r := Call(w, SwapRan(w, file, index, sql));
    if !r.ok then r else Call(r.w, SwapMarked(r.w, file, index))
  }

  /** The swap statements from index `i` on; `done` is what the progress rows said when the
      override was picked up. */
  function SwapPhase(w: World, file: string, swap: seq<string>, done: set<nat>, i: nat): Step
    requires i <= |swap|
    decreases |swap| - i
  {
    if i == |swap| then Step(w, true)
    else if i in done then SwapPhase(w, file, swap, done, i + 1)
    else
      var r := SwapOne(w, file, i, swap[i]);
      if !r.ok then r else SwapPhase(r.w, file, swap, done, i + 1)
  }

  datatype Override = Override(file: string, checksum: string, statements: seq<string>)

  /** Registering an override; the registry's unique index refuses a second row. */
  function Register(w: World, o: Override): Step {
    if o.file in w.applied then Step(w.(script := Rest(w)), false)
    else Call(w, w.(applied := w.applied[o.file := Registered(o.checksum, o.statements)]))
  }

  function ApplyOverride(e: Engine, w: World, o: Override): Step {
    var phases := Split(o.statements, e.isSwap);
    var s := Call(w, w);
    if !s.ok then s else
    var resume := ProgressOf(s.w, o.file);
    var c := if phases.copy != [] && !resume.copyDone then CopyPhase(e, s.w, o.file, phases.copy) else s;
    if !c.ok then c else
    var p := SwapPhase(c.w, o.file, phases.swap, resume.swapDone, 0);
    if !p.ok then p else
    var r := Register(p.w, o);
    if !r.ok then r else
    Step(Call(r.w, Cleared(r.w, o.file)).w, true)
  }
}
