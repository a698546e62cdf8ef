/** What every interrupted application of an override leaves behind. */
module PhaseEngineProofs {
  import opened Text
  import opened OverridePhases
  import opened PhaseEngine
  import Classification

  /** A call is reported as done only when it was acknowledged; it takes effect unless it was
      refused; and it uses up one outcome. */
  lemma CallMeans(w: World, effect: World)
    requires w.script != []
    ensures var r := Call(w, effect);
            && (r.ok <==> w.script[0] == Acked) && r.w.script == w.script[1..]
            && (w.script[0] == Refused ==> r.w == w.(script := r.w.script))
            && (w.script[0] != Refused ==> r.w == effect.(script := r.w.script))
  {
  }

  // ----- what the log says about one file -----

  /** The transaction-joining copy statements of `file` in the log, by index, in log order. */
  function Dml(e: Engine, log: seq<Entry>, file: string): seq<nat> {
    if log == [] then []
    else
      var x := log[|log| - 1];
      Dml(e, log[..|log| - 1], file)
      + (if x.CopyRun? && x.file == file && e.joins(x.sql) then [x.index] else [])
  }

  /** The swap statements of `file` in the log, by index, in log order. */
  function Swaps(log: seq<Entry>, file: string): seq<nat> {
    if log == [] then []
    else
      var x := log[|log| - 1];
      Swaps(log[..|log| - 1], file) + (if x.SwapRun? && x.file == file then [x.index] else [])
  }

  /** The indices below `n` of the copy statements that join the transaction: each once. */
  function Joining(e: Engine, copy: seq<string>, n: nat): seq<nat>
    requires n <= |copy|
  {
    if n == 0 then []
    else Joining(e, copy, n - 1) + (if e.joins(copy[n - 1]) then [n - 1] else [])
  }

  /** Swap executions start at 0 and each either repeats the last one or is the next. */
  predicate Climbs(s: seq<nat>) {
    && (s != [] ==> s[0] == 0)
    && forall i | 0 < i < |s| :: s[i - 1] <= s[i] <= s[i - 1] + 1
  }

  function Reached(s: seq<nat>): nat {
    if s == [] then 0 else s[|s| - 1] + 1
  }

  function Below(k: nat): (r: set<nat>)
    ensures forall i: nat :: i in r <==> i < k
  {
    if k == 0 then {} else Below(k - 1) + {k - 1}
  }

  /** The copy phase as one block of the log: every copy statement in authored order, the counts
      verified between what stood before the block and what stood after it, none of the
      override's swaps before it and none of its copies after it. */
  ghost predicate CopiedAt(e: Engine, log: seq<Entry>, file: string, copy: seq<string>, n: nat) {
    && n + |copy| <= |log|
    && log[n..n + |copy|] == CopyEntries(file, copy, |copy|)
    && Verified(e, e.pairs(copy), log[..n], log[..n + |copy|], 0)
    && (forall i | 0 <= i < n :: log[i].SwapRun? ==> log[i].file != file)
    && (forall i | n + |copy| <= i < |log| :: log[i].CopyRun? ==> log[i].file != file)
  }

  ghost predicate CopyDurable(e: Engine, log: seq<Entry>, file: string, copy: seq<string>) {
    copy == [] || exists n: nat :: CopiedAt(e, log, file, copy, n)
  }

  /** Where an override stands. Not registered: its transactional copies are durable, each once
      and in order, exactly when the copy marker is, and then so is the whole verified copy
      block; the marked swaps are a prefix and the executed ones that prefix or one more; no swap
      ran before the copy phase committed. Registered: all of both phases ran. */
  ghost predicate InOrder(e: Engine, w: World, o: Override) {
    var phases := Split(o.statements, e.isSwap);
    var p := ProgressOf(w, o.file);
    var ran := Swaps(w.log, o.file);
    var reached := Reached(ran);
    && Climbs(ran) && reached <= |phases.swap|
    && (p.copyDone || o.file in w.applied ==> CopyDurable(e, w.log, o.file, phases.copy))
    && (if o.file in w.applied then
          && w.applied[o.file] == Registered(o.checksum, o.statements)
          && Dml(e, w.log, o.file) == Joining(e, phases.copy, |phases.copy|)
          && reached == |phases.swap|
        else
          && Dml(e, w.log, o.file) == (if p.copyDone then Joining(e, phases.copy, |phases.copy|) else [])
          && (p.swapDone == Below(reached) || (reached > 0 && p.swapDone == Below(reached - 1)))
          && (reached > 0 ==> p.copyDone || phases.copy == []))
  }

  predicate About(x: Entry, file: string) {
    !x.DiffRun? && x.file == file
  }

  /** What the log gained does not concern `file`. */
  predicate Unconcerned(log: seq<Entry>, log': seq<Entry>, file: string) {
    log <= log' && forall i | |log| <= i < |log'| :: !About(log'[i], file)
  }

  /** What the log gained concerns `file` alone. */
  predicate Concerns(log: seq<Entry>, log': seq<Entry>, file: string) {
    log <= log' && forall i | |log| <= i < |log'| :: About(log'[i], file)
  }

  /** Nothing about `file` differs between the two worlds. */
  predicate SameFor(e: Engine, w: World, w': World, file: string) {
    && Dml(e, w'.log, file) == Dml(e, w.log, file)
    && Swaps(w'.log, file) == Swaps(w.log, file)
    && Unconcerned(w.log, w'.log, file)
    && ProgressOf(w', file) == ProgressOf(w, file)
    && (file in w'.applied <==> file in w.applied)
    && (file in w.applied ==> w'.applied[file] == w.applied[file])
  }

  ghost predicate SameForOthers(e: Engine, w: World, w': World, file: string) {
    forall f | f != file :: SameFor(e, w, w', f)
  }

  lemma SameForChain(e: Engine, a: World, b: World, c: World, file: string)
    requires SameForOthers(e, a, b, file) && SameForOthers(e, b, c, file)
    ensures SameForOthers(e, a, c, file)
  {
    forall f | f != file ensures SameFor(e, a, c, f) {
      assert SameFor(e, a, b, f) && SameFor(e, b, c, f);
    }
  }

  lemma ConcernsChain(a: seq<Entry>, b: seq<Entry>, c: seq<Entry>, file: string)
    requires Concerns(a, b, file) && Concerns(b, c, file)
    ensures Concerns(a, c, file)
  {
  }

  lemma Idle(e: Engine, w: World, w': World, file: string)
    requires w'.log == w.log && w'.progress == w.progress && w'.applied == w.applied
    ensures SameForOthers(e, w, w', file) && Concerns(w.log, w'.log, file)
  {
    hide Dml, Swaps;
  }

  // ----- the shape of the log -----

  function CopyEntries(file: string, copy: seq<string>, n: nat): seq<Entry>
    requires n <= |copy|
  {
    if n == 0 then [] else CopyEntries(file, copy, n - 1) + [CopyRun(file, n - 1, copy[n - 1])]
  }

  /** The copy statements below `n` that commit as they run. */
  function AutoEntries(e: Engine, file: string, copy: seq<string>, n: nat): seq<Entry>
    requires n <= |copy|
  {
    if n == 0 then []
    else AutoEntries(e, file, copy, n - 1) + (if e.joins(copy[n - 1]) then [] else [CopyRun(file, n - 1, copy[n - 1])])
  }

  function SwapEntries(file: string, swap: seq<string>, a: nat, b: nat): seq<Entry>
    requires a <= b <= |swap|
    decreases b
  {
    if a == b then [] else SwapEntries(file, swap, a, b - 1) + [SwapRun(file, b - 1, swap[b - 1])]
  }

  lemma OneCopyRan(e: Engine, w: World, file: string, copy: seq<string>, i: nat, view0: seq<Entry>, log0: seq<Entry>)
    requires w.tx.Some? && i < |copy|
    requires w.tx.value.view == view0 + CopyEntries(file, copy, i) && w.log == log0 + AutoEntries(e, file, copy, i)
    ensures var r := CopyRan(e, w, file, i, copy[i]);
            && r.tx == Some(Tx(view0 + CopyEntries(file, copy, i + 1), w.tx.value.marked))
            && r == w.(log := log0 + AutoEntries(e, file, copy, i + 1), tx := r.tx)
  {
    var x := CopyRun(file, i, copy[i]);
    assert CopyEntries(file, copy, i + 1) == CopyEntries(file, copy, i) + [x];
    assert view0 + CopyEntries(file, copy, i) + [x] == view0 + (CopyEntries(file, copy, i) + [x]);
    assert log0 + AutoEntries(e, file, copy, i) + [x] == log0 + (AutoEntries(e, file, copy, i) + [x]);
    assert AutoEntries(e, file, copy, i) + [] == AutoEntries(e, file, copy, i);
  }

  lemma {:induction false} RunCopyShape(e: Engine, w: World, file: string, copy: seq<string>, i: nat,
      view0: seq<Entry>, log0: seq<Entry>)
    returns (j: nat)
    requires w.tx.Some? && i <= |copy|
    requires w.tx.value.view == view0 + CopyEntries(file, copy, i)
    requires w.log == log0 + AutoEntries(e, file, copy, i)
    ensures j <= |copy|
    ensures var r := RunCopy(e, w, file, copy, i);
            && r.w.tx == Some(Tx(view0 + CopyEntries(file, copy, j), w.tx.value.marked))
            && r.w == w.(log := log0 + AutoEntries(e, file, copy, j), tx := r.w.tx, script := r.w.script)
            && (r.ok ==> j == |copy|)
    decreases |copy| - i
  {
    hide CopyEntries, AutoEntries, CopyRan;
    if i == |copy| {
      j := i;
    } else {
      var r := Call(w, CopyRan(e, w, file, i, copy[i]));
      if NextOutcome(w) == Refused {
        j := i;
      } else {
        OneCopyRan(e, w, file, copy, i, view0, log0);
        if r.ok {
          j := RunCopyShape(e, r.w, file, copy, i + 1, view0, log0);
        } else {
          j := i + 1;
        }
      }
    }
  }

  /** Counts that passed: every target held at least what its source held before. */
  predicate Verified(e: Engine, pairs: seq<Classification.CopyPair>, before: seq<Entry>, view: seq<Entry>, i: nat)
    requires i <= |pairs|
  {
    forall k | i <= k < |pairs| :: e.count(pairs[k].target, view) >= e.count(pairs[k].source, before)
  }

  lemma {:induction false} VerifyCountsVerifies(e: Engine, w: World, pairs: seq<Classification.CopyPair>,
      before: seq<Entry>, i: nat)
    requires w.tx.Some? && i <= |pairs|
    ensures VerifyCounts(e, w, pairs, before, i).ok ==> Verified(e, pairs, before, w.tx.value.view, i)
    decreases |pairs| - i
  {
    if i < |pairs| {
      var r := Call(w, w);
      if r.ok {
        VerifyCountsVerifies(e, r.w, pairs, before, i + 1);
      }
    }
  }

  lemma CopyBodyShape(e: Engine, w: World, file: string, copy: seq<string>, before: seq<Entry>)
    returns (j: nat)
    requires w.tx == Some(Tx(before, false)) && w.log == before
    ensures j <= |copy|
    ensures var r := CopyBody(e, w, file, copy, before);
            && r.w == w.(log := before + AutoEntries(e, file, copy, j), tx := r.w.tx, script := r.w.script)
            && r.w.tx.Some?
            && (r.ok ==>
                  && r.w.tx.value == Tx(before + CopyEntries(file, copy, |copy|), true)
                  && Verified(e, e.pairs(copy), before, r.w.tx.value.view, 0))
  {
    hide AutoEntries, CopyEntries, Verified, RunCopy, VerifyCounts, Reads;
    j := 0;
    EmptyEntries(e, file, copy);
    assert before + [] == before;
    var pairs := e.pairs(copy);
    var s := Reads(w, |pairs|);
    if s.ok {
      j := RunCopyShape(e, s.w, file, copy, 0, before, before);
      var c := RunCopy(e, s.w, file, copy, 0);
      if c.ok {
        VerifyCountsVerifies(e, c.w, pairs, before, 0);
      }
    }
  }

  lemma EmptyEntries(e: Engine, file: string, copy: seq<string>)
    ensures CopyEntries(file, copy, 0) == AutoEntries(e, file, copy, 0) == []
  {
  }

  /** One attempt at the copy phase. Either it committed, and then every copy statement, the
      marker and the verified counts became durable together; or nothing but a prefix of the
      statements that commit as they run is left. */
  lemma CopyPhaseShape(e: Engine, w: World, file: string, copy: seq<string>)
    returns (committed: bool, j: nat)
    ensures j <= |copy|
    ensures var r := CopyPhase(e, w, file, copy);
            && r.w == w.(log := r.w.log, tx := r.w.tx, progress := r.w.progress, script := r.w.script)
            && (r.ok ==> committed)
            && (committed ==>
                  && r.w.log == w.log + CopyEntries(file, copy, |copy|)
                  && r.w.progress == w.progress[file := ProgressOf(w, file).(copyDone := true)]
                  && Verified(e, e.pairs(copy), w.log, r.w.log, 0))
            && (!committed ==> r.w.log == w.log + AutoEntries(e, file, copy, j) && r.w.progress == w.progress)
  {
    hide AutoEntries, CopyEntries, Verified, CopyBody;
    committed, j := false, 0;
    EmptyEntries(e, file, copy);
    assert w.log + [] == w.log;
    var b := Call(w, Began(w));
    if b.ok {
      j := CopyBodyShape(e, b.w, file, copy, w.log);
      var c := CopyBody(e, b.w, file, copy, w.log);
      committed := c.ok && NextOutcome(c.w) != Refused;
    }
  }

  lemma {:induction false} SkipsDone(w: World, file: string, swap: seq<string>, k: nat, i: nat)
    requires i <= k <= |swap|
    ensures SwapPhase(w, file, swap, Below(k), i) == SwapPhase(w, file, swap, Below(k), k)
    decreases k - i
  {
    hide Below, SwapOne;
    if i < k {
      assert i in Below(k);
      SkipsDone(w, file, swap, k, i + 1);
    }
  }

  /** One swap: it ran and is marked, it ran unmarked, or nothing happened. */
  lemma SwapOneShape(w: World, file: string, swap: seq<string>, i: nat) returns (marked: nat, ran: nat)
    requires i < |swap| && ProgressOf(w, file).swapDone == Below(i)
    ensures i <= marked <= ran <= i + 1
    ensures var r := SwapOne(w, file, i, swap[i]);
            && r.w == w.(log := w.log + SwapEntries(file, swap, i, ran), progress := r.w.progress, script := r.w.script)
            && SwapProgress(w, r.w, file, marked)
            && (r.ok ==> marked == ran == i + 1)
  {
    hide SwapEntries;
    SwapEntriesOne(file, swap, i);
    assert w.log + [] == w.log;
    assert Below(i) + {i} == Below(i + 1);
    ran := if NextOutcome(w) == Refused then i else i + 1;
    var r := Call(w, SwapRan(w, file, i, swap[i]));
    marked := if r.ok && NextOutcome(r.w) != Refused then i + 1 else i;
  }

  /** One attempt at the swap phase from a marked prefix: it executes consecutive statements
      from there on and marks all of them except possibly the last. */
  lemma {:induction false} SwapPhaseShape(w: World, file: string, swap: seq<string>, done: set<nat>, i: nat)
    returns (marked: nat, ran: nat)
    requires i <= |swap| && (forall k | k in done :: k < i)
    requires ProgressOf(w, file).swapDone == Below(i)
    ensures i <= marked <= ran <= |swap| && ran <= marked + 1
    ensures var r := SwapPhase(w, file, swap, done, i);
            && r.w == w.(log := w.log + SwapEntries(file, swap, i, ran), progress := r.w.progress, script := r.w.script)
            && SwapProgress(w, r.w, file, marked)
            && (r.ok ==> marked == ran == |swap|)
    decreases |swap| - i
  {
    hide SwapEntries, SwapOne, Below;
    if i == |swap| {
      marked, ran := i, i;
      SwapEntriesOne(file, swap, i);
      assert w.log + [] == w.log;
    } else {
      marked, ran := SwapOneShape(w, file, swap, i);
      var r := SwapOne(w, file, i, swap[i]);
      if r.ok {
        marked, ran := SwapPhaseShape(r.w, file, swap, done, i + 1);
        SwapEntriesSplit(file, swap, i, i + 1, ran);
        assert w.log + SwapEntries(file, swap, i, ran) == r.w.log + SwapEntries(file, swap, i + 1, ran);
      }
    }
  }

  /** Only the swap marks of `file` moved, and they are now the prefix `marked`. */
  ghost predicate SwapProgress(w: World, w': World, file: string, marked: nat) {
    && ProgressOf(w', file) == ProgressOf(w, file).(swapDone := Below(marked))
    && forall f | f != file :: ProgressOf(w', f) == ProgressOf(w, f)
  }

  lemma SwapEntriesOne(file: string, swap: seq<string>, i: nat)
    requires i <= |swap|
    ensures SwapEntries(file, swap, i, i) == []
    ensures i < |swap| ==> SwapEntries(file, swap, i, i + 1) == [SwapRun(file, i, swap[i])]
  {
  }

  lemma {:induction false} SwapEntriesSplit(file: string, swap: seq<string>, a: nat, b: nat, c: nat)
    requires a <= b <= c <= |swap|
    ensures SwapEntries(file, swap, a, c) == SwapEntries(file, swap, a, b) + SwapEntries(file, swap, b, c)
    decreases c
  {
    if b < c {
      SwapEntriesSplit(file, swap, a, b, c - 1);
    }
  }

  // ----- reading the shapes -----

  lemma {:induction false} DmlConcat(e: Engine, a: seq<Entry>, b: seq<Entry>, file: string)
    ensures Dml(e, a + b, file) == Dml(e, a, file) + Dml(e, b, file)
    ensures Swaps(a + b, file) == Swaps(a, file) + Swaps(b, file)
  {
    if b == [] {
      assert a + b == a;
    } else {
      assert (a + b)[..|a + b| - 1] == a + b[..|b| - 1];
      DmlConcat(e, a, b[..|b| - 1], file);
    }
  }

  lemma NothingRead(e: Engine, f: string)
    ensures Dml(e, [], f) == [] && Swaps([], f) == []
  {
  }

  lemma CopyOneRead(e: Engine, file: string, index: nat, sql: string, f: string)
    ensures Dml(e, [CopyRun(file, index, sql)], f) == (if f == file && e.joins(sql) then [index] else [])
    ensures Swaps([CopyRun(file, index, sql)], f) == []
  {
  }

  lemma {:induction false} CopyEntriesRead(e: Engine, file: string, copy: seq<string>, n: nat, f: string)
    requires n <= |copy|
    ensures Dml(e, CopyEntries(file, copy, n), f) == if f == file then Joining(e, copy, n) else []
    ensures Swaps(CopyEntries(file, copy, n), f) == []
    ensures Dml(e, AutoEntries(e, file, copy, n), f) == []
    ensures Swaps(AutoEntries(e, file, copy, n), f) == []
  {
    hide Dml, Swaps;
    NothingRead(e, f);
    if n > 0 {
      CopyEntriesRead(e, file, copy, n - 1, f);
      CopyOneRead(e, file, n - 1, copy[n - 1], f);
      var x := [CopyRun(file, n - 1, copy[n - 1])];
      DmlConcat(e, CopyEntries(file, copy, n - 1), x, f);
      DmlConcat(e, AutoEntries(e, file, copy, n - 1), x, f);
      assert AutoEntries(e, file, copy, n - 1) + [] == AutoEntries(e, file, copy, n - 1);
    }
  }

  lemma {:induction false} NoSwaps(log: seq<Entry>, file: string)
    requires Swaps(log, file) == []
    ensures forall i | 0 <= i < |log| :: log[i].SwapRun? ==> log[i].file != file
  {
    if log != [] {
      var init := log[..|log| - 1];
      NoSwaps(init, file);
      assert forall i | 0 <= i < |init| :: log[i] == init[i];
    }
  }

  lemma {:induction false} EntriesAbout(e: Engine, file: string, copy: seq<string>, n: nat)
    requires n <= |copy|
    ensures |CopyEntries(file, copy, n)| == n
    ensures forall i | 0 <= i < n :: CopyEntries(file, copy, n)[i] == CopyRun(file, i, copy[i])
    ensures forall x | x in AutoEntries(e, file, copy, n) :: x.CopyRun? && x.file == file
  {
    if n > 0 { EntriesAbout(e, file, copy, n - 1); }
  }

  lemma {:induction false} SwapsAbout(file: string, swap: seq<string>, a: nat, b: nat)
    requires a <= b <= |swap|
    ensures forall x | x in SwapEntries(file, swap, a, b) :: x.SwapRun? && x.file == file
    decreases b
  {
    if a < b { SwapsAbout(file, swap, a, b - 1); }
  }

  /** Entries of the file alone leave every other file unconcerned. */
  lemma OnlyAbout(log: seq<Entry>, added: seq<Entry>, file: string)
    requires forall x | x in added :: About(x, file)
    ensures Concerns(log, log + added, file)
    ensures forall f | f != file :: Unconcerned(log, log + added, f)
  {
    forall i | |log| <= i < |log + added| ensures About((log + added)[i], file) { assert (log + added)[i] in added; }
    forall f, i | f != file && |log| <= i < |log + added| ensures !About((log + added)[i], f) {
      assert (log + added)[i] in added;
    }
  }

  /** A committed copy phase is a copy block at the end of the log. */
  lemma CopiedFresh(e: Engine, log: seq<Entry>, file: string, copy: seq<string>)
    requires Swaps(log, file) == []
    requires Verified(e, e.pairs(copy), log, log + CopyEntries(file, copy, |copy|), 0)
    ensures CopiedAt(e, log + CopyEntries(file, copy, |copy|), file, copy, |log|)
  {
    hide Verified, CopyEntries, Swaps;
    EntriesAbout(e, file, copy, |copy|);
    NoSwaps(log, file);
    var all := log + CopyEntries(file, copy, |copy|);
    assert all[..|log|] == log && all[..|log| + |copy|] == all;
  }

  /** The block stays where it is as the log grows by anything but more copies of the file. */
  lemma CopiedStays(e: Engine, log: seq<Entry>, log': seq<Entry>, file: string, copy: seq<string>)
    requires log <= log' && CopyDurable(e, log, file, copy)
    requires forall i | |log| <= i < |log'| :: log'[i].CopyRun? ==> log'[i].file != file
    ensures CopyDurable(e, log', file, copy)
  {
    hide Verified, CopyEntries;
    if copy != [] {
      var n: nat :| CopiedAt(e, log, file, copy, n);
      assert log'[..n] == log[..n] && log'[..n + |copy|] == log[..n + |copy|];
      assert log'[n..n + |copy|] == log[n..n + |copy|];
      assert CopiedAt(e, log', file, copy, n);
    }
  }

  /** Nor does a block appear where nothing about the file was logged. */
  lemma CopiedBefore(e: Engine, log: seq<Entry>, log': seq<Entry>, file: string, copy: seq<string>)
    requires Unconcerned(log, log', file) && CopyDurable(e, log', file, copy)
    ensures CopyDurable(e, log, file, copy)
  {
    hide Verified, CopyEntries;
    if copy != [] {
      var n: nat :| CopiedAt(e, log', file, copy, n);
      EntriesAbout(e, file, copy, |copy|);
      var last := n + |copy| - 1;
      assert log'[last] == log'[n..n + |copy|][|copy| - 1];
      assert About(log'[last], file);
      assert log[..n] == log'[..n] && log[..n + |copy|] == log'[..n + |copy|];
      assert log[n..n + |copy|] == log'[n..n + |copy|];
      assert CopiedAt(e, log, file, copy, n);
    }
  }

  function Range(a: nat, b: nat): (r: seq<nat>)
    requires a <= b
    ensures |r| == b - a && forall i | 0 <= i < |r| :: r[i] == a + i
  {
    seq(b - a, i requires 0 <= i < b - a => a + i)
  }

  lemma SwapOneRead(e: Engine, file: string, index: nat, sql: string, f: string)
    ensures Dml(e, [SwapRun(file, index, sql)], f) == []
    ensures Swaps([SwapRun(file, index, sql)], f) == (if f == file then [index] else [])
  {
  }

  lemma {:induction false} SwapEntriesRead(e: Engine, file: string, swap: seq<string>, a: nat, b: nat, f: string)
    requires a <= b <= |swap|
    ensures Dml(e, SwapEntries(file, swap, a, b), f) == []
    ensures Swaps(SwapEntries(file, swap, a, b), f) == if f == file then Range(a, b) else []
    decreases b
  {
    hide Dml, Swaps;
    NothingRead(e, f);
    if a < b {
      SwapEntriesRead(e, file, swap, a, b - 1, f);
      SwapOneRead(e, file, b - 1, swap[b - 1], f);
      DmlConcat(e, SwapEntries(file, swap, a, b - 1), [SwapRun(file, b - 1, swap[b - 1])], f);
      assert Range(a, b) == Range(a, b - 1) + [b - 1];
    }
  }

  /** Appending a run of swaps that starts at the mark keeps the climb. */
  lemma ClimbsOn(s: seq<nat>, a: nat, b: nat)
    requires Climbs(s) && a <= b && (a == Reached(s) || a + 1 == Reached(s))
    ensures Climbs(s + Range(a, b))
    ensures Reached(s + Range(a, b)) == if a < b then b else Reached(s)
  {
    var t := s + Range(a, b);
    forall i | 0 < i < |t| ensures t[i - 1] <= t[i] <= t[i - 1] + 1 {
      if i == |s| {
        assert t[i - 1] == s[|s| - 1] && t[i] == a;
      }
    }
  }

  // ----- one application of one override -----

  /** The state an unregistered override is in once its copy phase needs no further work. */
  ghost predicate ReadyToSwap(e: Engine, w: World, o: Override, k: nat) {
    var phases := Split(o.statements, e.isSwap);
    && InOrder(e, w, o) && o.file !in w.applied
    && (phases.copy == [] || ProgressOf(w, o.file).copyDone)
    && ProgressOf(w, o.file).swapDone == Below(k)
  }

  lemma CopyPhaseKeepsOrder(e: Engine, w: World, o: Override)
    requires InOrder(e, w, o) && o.file !in w.applied && !ProgressOf(w, o.file).copyDone
    ensures var copy := Split(o.statements, e.isSwap).copy;
            var r := CopyPhase(e, w, o.file, copy);
            && (copy != [] ==> InOrder(e, r.w, o)) && o.file !in r.w.applied
            && r.w.applied == w.applied && r.w.snapshot == w.snapshot
            && ProgressOf(r.w, o.file).swapDone == ProgressOf(w, o.file).swapDone
            && (r.ok ==> ProgressOf(r.w, o.file).copyDone)
            && SameForOthers(e, w, r.w, o.file) && Concerns(w.log, r.w.log, o.file)
  {
    hide OfClass, Dml, Swaps, Climbs, Joining, CopyEntries, AutoEntries, SwapEntries, CopyPhase, SwapPhase, Below,
         Range, Verified, CopiedAt;
    var copy := Split(o.statements, e.isSwap).copy;
    var committed, j := CopyPhaseShape(e, w, o.file, copy);
    var added := if committed then CopyEntries(o.file, copy, |copy|) else AutoEntries(e, o.file, copy, j);
    EntriesAbout(e, o.file, copy, if committed then |copy| else j);
    OnlyAbout(w.log, added, o.file);
    if committed && copy != [] { CopiedFresh(e, w.log, o.file, copy); }
    forall f
      ensures Dml(e, w.log + added, f)
              == Dml(e, w.log, f) + (if committed && f == o.file then Joining(e, copy, |copy|) else [])
             ensures Swaps(w.log + added, f) == Swaps(w.log, f)
    {
      DmlConcat(e, w.log, added, f);
      CopyEntriesRead(e, o.file, copy, if committed then |copy| else j, f);
    }
  }

  /** What a run of swaps adds to what the log says about each file. */
  lemma SwapsLogged(e: Engine, log: seq<Entry>, file: string, swap: seq<string>, a: nat, b: nat)
    requires a <= b <= |swap|
    ensures var added := SwapEntries(file, swap, a, b);
            forall f :: Dml(e, log + added, f) == Dml(e, log, f)
                        && Swaps(log + added, f) == Swaps(log, f) + (if f == file then Range(a, b) else [])
  {
    hide Dml, Swaps, SwapEntries, Range;
    var added := SwapEntries(file, swap, a, b);
    forall f ensures Dml(e, log + added, f) == Dml(e, log, f)
             ensures Swaps(log + added, f) == Swaps(log, f) + (if f == file then Range(a, b) else [])
    {
      DmlConcat(e, log, added, f);
      SwapEntriesRead(e, file, swap, a, b, f);
    }
  }

  lemma SwapsKeepCopies(e: Engine, log: seq<Entry>, file: string, copy: seq<string>, swap: seq<string>, a: nat, b: nat)
    requires a <= b <= |swap|
    ensures CopyDurable(e, log, file, copy) ==> CopyDurable(e, log + SwapEntries(file, swap, a, b), file, copy)
  {
    hide SwapEntries, CopyDurable;
    var added := SwapEntries(file, swap, a, b);
    if CopyDurable(e, log, file, copy) {
      SwapsAbout(file, swap, a, b);
      forall i | |log| <= i < |log + added| ensures !(log + added)[i].CopyRun? { assert (log + added)[i] in added; }
      CopiedStays(e, log, log + added, file, copy);
    }
  }

  lemma SwapPhaseKeepsOrder(e: Engine, w: World, o: Override, k: nat)
    requires ReadyToSwap(e, w, o, k)
    ensures k <= |Split(o.statements, e.isSwap).swap|
    ensures var swap := Split(o.statements, e.isSwap).swap;
            var r := SwapPhase(w, o.file, swap, Below(k), 0);
            && InOrder(e, r.w, o) && r.w.applied == w.applied && r.w.snapshot == w.snapshot
            && (r.ok ==> Reached(Swaps(r.w.log, o.file)) == |swap| && ReadyToSwap(e, r.w, o, |swap|))
            && SameForOthers(e, w, r.w, o.file) && Concerns(w.log, r.w.log, o.file)
  {
    hide OfClass, Dml, Swaps, Climbs, Joining, CopyEntries, AutoEntries, SwapEntries, CopyPhase, SwapPhase, Below,
         Range, CopyDurable;
    var swap := Split(o.statements, e.isSwap).swap;
    var ran := Swaps(w.log, o.file);
    BelowInjective(k, Reached(ran));
    if Reached(ran) > 0 { BelowInjective(k, Reached(ran) - 1); }
    SkipsDone(w, o.file, swap, k, 0);
    var marked, upTo := SwapPhaseShape(w, o.file, swap, Below(k), k);
    var added := SwapEntries(o.file, swap, k, upTo);
    SwapsAbout(o.file, swap, k, upTo);
    OnlyAbout(w.log, added, o.file);
    SwapsKeepCopies(e, w.log, o.file, Split(o.statements, e.isSwap).copy, swap, k, upTo);
    SwapsLogged(e, w.log, o.file, swap, k, upTo);
    ClimbsOn(ran, k, upTo);
  }

  lemma BelowInjective(a: nat, b: nat)
    ensures Below(a) == Below(b) <==> a == b
  {
    if a < b { assert a in Below(b) && a !in Below(a); }
    if b < a { assert b in Below(a) && b !in Below(b); }
  }

  /** Two worlds with the same log differ for no file whose progress and registration they share. */
  lemma SameButOne(e: Engine, w: World, w': World, file: string)
    requires w'.log == w.log
    requires forall f | f != file :: ProgressOf(w', f) == ProgressOf(w, f) && (f in w'.applied <==> f in w.applied)
    requires forall f | f != file && f in w.applied :: w'.applied[f] == w.applied[f]
    ensures SameForOthers(e, w, w', file)
  {
    hide Dml, Swaps, ProgressOf;
  }

  lemma NothingToCopy(e: Engine, log: seq<Entry>, file: string)
    ensures Joining(e, [], 0) == [] && CopyDurable(e, log, file, [])
  {
  }

  lemma RegisterKeepsOrder(e: Engine, w: World, o: Override, k: nat)
    requires ReadyToSwap(e, w, o, k) && Reached(Swaps(w.log, o.file)) == |Split(o.statements, e.isSwap).swap|
    ensures var r := Register(w, o);
            && InOrder(e, r.w, o) && r.w.snapshot == w.snapshot && (r.ok ==> o.file in r.w.applied)
            && SameForOthers(e, w, r.w, o.file)
  {
    hide OfClass, Dml, Swaps, Climbs, Below, Joining, CopyDurable, SameForOthers;
    NothingToCopy(e, w.log, o.file);
    SameButOne(e, w, Register(w, o).w, o.file);
  }

  lemma ClearKeepsOrder(e: Engine, w: World, o: Override)
    requires InOrder(e, w, o) && o.file in w.applied
    ensures var c := Call(w, Cleared(w, o.file)).w;
            && InOrder(e, c, o) && c.snapshot == w.snapshot && o.file in c.applied
            && SameForOthers(e, w, c, o.file)
  {
    hide OfClass, Dml, Swaps, Climbs, Below, Joining, CopyDurable, SameForOthers;
    SameButOne(e, w, Call(w, Cleared(w, o.file)).w, o.file);
  }

  lemma FinishKeepsOrder(e: Engine, w: World, o: Override, k: nat)
    requires ReadyToSwap(e, w, o, k) && Reached(Swaps(w.log, o.file)) == |Split(o.statements, e.isSwap).swap|
    ensures var r := Register(w, o);
            var c := Call(r.w, Cleared(r.w, o.file)).w;
            && InOrder(e, r.w, o) && r.w.snapshot == w.snapshot && SameForOthers(e, w, r.w, o.file)
            && (r.ok ==> o.file in r.w.applied && o.file in c.applied && InOrder(e, c, o))
            && (r.ok ==> c.snapshot == w.snapshot && SameForOthers(e, w, c, o.file))
  {
    hide InOrder, ReadyToSwap, Register, SameForOthers, Cleared;
    RegisterKeepsOrder(e, w, o, k);
    var r := Register(w, o);
    if r.ok {
      ClearKeepsOrder(e, r.w, o);
      SameForChain(e, w, r.w, Call(r.w, Cleared(r.w, o.file)).w, o.file);
    }
  }

  /** An application up to the end of its copy phase. */
  function AfterCopy(e: Engine, w: World, o: Override): Step {
    var copy := Split(o.statements, e.isSwap).copy;
    var s := Call(w, w);
    if !s.ok then s
    else if copy != [] && !ProgressOf(s.w, o.file).copyDone then CopyPhase(e, s.w, o.file, copy)
    else s
  }

  /** The rest of it. */
  function AfterSwap(e: Engine, w: World, o: Override, done: set<nat>): Step {
    var p := SwapPhase(w, o.file, Split(o.statements, e.isSwap).swap, done, 0);
    if !p.ok then p
    else
      var r := Register(p.w, o);
      if !r.ok then r else Step(Call(r.w, Cleared(r.w, o.file)).w, true)
  }

  lemma ApplyIs(e: Engine, w: World, o: Override)
    ensures var c := AfterCopy(e, w, o);
            ApplyOverride(e, w, o) == if !c.ok then c else AfterSwap(e, c.w, o, ProgressOf(w, o.file).swapDone)
  {
    hide OfClass, CopyPhase, SwapPhase, Register;
  }

  lemma AfterCopyKeepsOrder(e: Engine, w: World, o: Override) returns (k: nat)
    requires InOrder(e, w, o) && o.file !in w.applied
    ensures var c := AfterCopy(e, w, o);
            && InOrder(e, c.w, o) && o.file !in c.w.applied && c.w.snapshot == w.snapshot
            && ProgressOf(w, o.file).swapDone == Below(k)
            && (c.ok ==> ReadyToSwap(e, c.w, o, k))
            && SameForOthers(e, w, c.w, o.file) && Concerns(w.log, c.w.log, o.file)
  {
    hide OfClass, Dml, Swaps, Climbs, Joining, CopyPhase, Below, CopyDurable, SameForOthers, Concerns;
    var copy := Split(o.statements, e.isSwap).copy;
    var s := Call(w, w);
    Idle(e, w, s.w, o.file);
    var reached := Reached(Swaps(w.log, o.file));
    k := if ProgressOf(w, o.file).swapDone == Below(reached) then reached else reached - 1;
    if s.ok && copy != [] && !ProgressOf(s.w, o.file).copyDone {
      CopyPhaseKeepsOrder(e, s.w, o);
      var c := CopyPhase(e, s.w, o.file, copy);
      SameForChain(e, w, s.w, c.w, o.file);
      ConcernsChain(w.log, s.w.log, c.w.log, o.file);
    }
  }

  lemma AfterSwapKeepsOrder(e: Engine, w: World, o: Override, k: nat)
    requires ReadyToSwap(e, w, o, k)
    ensures var r := AfterSwap(e, w, o, Below(k));
            && InOrder(e, r.w, o) && (r.ok ==> o.file in r.w.applied) && r.w.snapshot == w.snapshot
            && SameForOthers(e, w, r.w, o.file) && Concerns(w.log, r.w.log, o.file)
  {
    hide InOrder, SwapPhase, SameForOthers, Concerns, Below;
    SwapPhaseKeepsOrder(e, w, o, k);
    var swap := Split(o.statements, e.isSwap).swap;
    var p := SwapPhase(w, o.file, swap, Below(k), 0);
    if p.ok {
      FinishKeepsOrder(e, p.w, o, |swap|);
      var r := Register(p.w, o);
      SameForChain(e, w, p.w, r.w, o.file);
      if r.ok { SameForChain(e, w, p.w, Call(r.w, Cleared(r.w, o.file)).w, o.file); }
    }
  }

  /** Every application of an unregistered override, however it is cut short, keeps it in order,
      logs nothing about any other override and touches no other; a successful one registers it. */
  lemma ApplyKeepsOrder(e: Engine, w: World, o: Override)
    requires InOrder(e, w, o) && o.file !in w.applied
    ensures var r := ApplyOverride(e, w, o);
            && InOrder(e, r.w, o)
            && (r.ok ==> o.file in r.w.applied)
            && r.w.snapshot == w.snapshot
            && SameForOthers(e, w, r.w, o.file) && Concerns(w.log, r.w.log, o.file)
  {
    hide InOrder, SameForOthers, Concerns, ApplyOverride, AfterCopy, AfterSwap, ReadyToSwap, Below;
    ApplyIs(e, w, o);
    var k := AfterCopyKeepsOrder(e, w, o);
    var c := AfterCopy(e, w, o);
    if c.ok {
      AfterSwapKeepsOrder(e, c.w, o, k);
      var r := AfterSwap(e, c.w, o, Below(k));
      SameForChain(e, w, c.w, r.w, o.file);
      ConcernsChain(w.log, c.w.log, r.w.log, o.file);
    }
  }
}
