/** The advisory migration lock: one row, claimed by reading it, sampling a clock, and then
    inserting or compare-and-setting, each a separate step that other processes can interleave
    with. Clocks may be off by at most `skew` from true time. */
module MigrationLock {
  import opened Text

  datatype Row = Row(holder: string, expires: int)

  datatype Claim = Insert | Cas(current: string) | Held(other: string, expires: int)

  function Decide(current: Option<Row>, now: int, holder: string): Claim {
    match current
    case None => Insert
    case Some(row) =>
      if row.expires > now && row.holder != holder then Held(row.holder, row.expires) else Cas(row.holder)
  }

  // ----- the interleaved system -----

  /** Where a process is in its claim: between claims, after the read, after the clock sample. */
  datatype Stage = Idle | Read(seen: Option<Row>) | Sampled(seen: Option<Row>, now: int)

  /** A process, named by its holder id: its stage and the expiry of the lease it believes in. */
  datatype Proc = Proc(stage: Stage, lease: Option<int>)

  /** `written` are the holder ids that ever stood in the row, `started` those that began a
      claim; both only record history. */
  datatype State = State(clock: int, row: Option<Row>, procs: map<string, Proc>, written: set<string>, started: set<string>)

  datatype Act =
    | Pass(to: int)
    | ReadRow(p: string)
    | SampleClock(p: string, now: int)
    | Write(p: string)
    | Release(p: string)
    | Crash(p: string)

  datatype Params = Params(leaseMs: int, skew: nat)

  function ProcOf(s: State, p: string): Proc {
    if p in s.procs then s.procs[p] else Proc(Idle, None)
  }

  function With(s: State, p: string, proc: Proc): State {
    s.(procs := s.procs[p := proc])
  }

  /** The write a sampled process makes: it succeeds when the unique index, or the holder in the
      `WHERE` clause, lets it. */
  predicate WriteSucceeds(s: State, p: string)
    requires ProcOf(s, p).stage.Sampled?
  {
    var st := ProcOf(s, p).stage;
    match Decide(st.seen, st.now, p)
    case Insert => s.row.None?
    case Cas(h) => s.row.Some? && s.row.value.holder == h
    case Held(_, _) => false
  }

  predicate Enabled(k: Params, s: State, a: Act) {
    match a
    case Pass(to) => s.clock <= to
    case ReadRow(p) => ProcOf(s, p).stage.Idle?
    case SampleClock(p, now) => ProcOf(s, p).stage.Read? && s.clock - k.skew <= now <= s.clock + k.skew
    case Write(p) => ProcOf(s, p).stage.Sampled?
    case Release(p) => ProcOf(s, p).stage.Idle?
    case Crash(p) => true
  }

  function Do(k: Params, s: State, a: Act): State
    requires Enabled(k, s, a)
  {
    match a
    case Pass(to) => s.(clock := to)
    case ReadRow(p) => With(s, p, ProcOf(s, p).(stage := Read(s.row))).(started := s.started + {p})
    case SampleClock(p, now) => With(s, p, ProcOf(s, p).(stage := Sampled(ProcOf(s, p).stage.seen, now)))
    case Write(p) =>
      if WriteSucceeds(s, p) then
        var expires := ProcOf(s, p).stage.now + k.leaseMs;
        With(s, p, Proc(Idle, Some(expires))).(row := Some(Row(p, expires)), written := s.written + {p})
      else With(s, p, ProcOf(s, p).(stage := Idle))
    case Release(p) =>
      With(s, p, Proc(Idle, None)).(row := if s.row.Some? && s.row.value.holder == p then None else s.row)
    case Crash(p) => With(s, p, Proc(Idle, None))
  }

  function Next(k: Params, s: State, a: Act): State {
    if Enabled(k, s, a) then Do(k, s, a) else s
  }

  function Run(k: Params, s: State, acts: seq<Act>): State {
    if acts == [] then s else Next(k, Run(k, s, acts[..|acts| - 1]), acts[|acts| - 1])
  }

  // ----- exclusion -----

  /** `p` holds a lease that no clock within the skew can yet call expired. */
  predicate Live(k: Params, s: State, p: string) {
    ProcOf(s, p).lease.Some? && s.clock < ProcOf(s, p).lease.value - k.skew
  }

  /** Every live lease is the one in the row. */
  ghost predicate Exclusive(k: Params, s: State) {
    forall p :: Live(k, s, p) ==> s.row == Some(Row(p, ProcOf(s, p).lease.value))
  }

  /** Samples lie in the past, up to the skew. */
  ghost predicate Sane(k: Params, s: State) {
    forall p :: ProcOf(s, p).stage.Sampled? ==> ProcOf(s, p).stage.now <= s.clock + k.skew
  }

  /** A write that takes over another holder's row while that row is no longer the one it read. */
  predicate StaleTake(s: State, p: string) {
    var st := ProcOf(s, p).stage;
    && st.Sampled? && WriteSucceeds(s, p) && s.row.Some? && s.row.value.holder != p
    && s.row != st.seen
  }

  /** Exactly the stale takes over a live lease break exclusion: from an exclusive state, a
      write keeps it exclusive if and only if it is not a stale take from a live holder. */
  lemma WriteKeepsExclusive(k: Params, s: State, p: string)
    requires Exclusive(k, s) && Sane(k, s) && ProcOf(s, p).stage.Sampled?
    ensures Exclusive(k, Do(k, s, Write(p))) <==> !(StaleTake(s, p) && Live(k, s, s.row.value.holder))
  {
    var t := Do(k, s, Write(p));
    forall q | q != p ensures ProcOf(t, q) == ProcOf(s, q) {}
    if StaleTake(s, p) && Live(k, s, s.row.value.holder) {
      assert Live(k, t, s.row.value.holder);
    } else {
      forall q | Live(k, t, q) ensures t.row == Some(Row(q, ProcOf(t, q).lease.value)) {
        if q != p { assert Live(k, s, q); }
      }
    }
  }

  lemma OtherActsKeepExclusive(k: Params, s: State, a: Act)
    requires Exclusive(k, s) && Enabled(k, s, a) && !a.Write?
    ensures Exclusive(k, Do(k, s, a))
  {
    var t := Do(k, s, a);
    forall q | Live(k, t, q) ensures t.row == Some(Row(q, ProcOf(t, q).lease.value)) {
      assert Live(k, s, q);
    }
  }

  lemma NextStaysSane(k: Params, s: State, a: Act)
    requires Sane(k, s)
    ensures Sane(k, Next(k, s, a))
  {
    var t := Next(k, s, a);
    forall q | ProcOf(t, q).stage.Sampled? ensures ProcOf(t, q).stage.now <= t.clock + k.skew {
      if ProcOf(s, q).stage.Sampled? { assert ProcOf(s, q).stage.now <= s.clock + k.skew; }
    }
  }

  /** No write of the run is a stale take. */
  ghost predicate NoStaleTake(k: Params, s: State, acts: seq<Act>) {
    forall n | 0 <= n < |acts| :: acts[n].Write? ==> !StaleTake(Run(k, s, acts[..n]), acts[n].p)
  }

  /** However processes interleave, claim again, refresh, crash and release: without a stale
      take, every live lease is the row's, at every point of the run. */
  lemma {:induction false} FreshRunsExclude(k: Params, s: State, acts: seq<Act>)
    requires Exclusive(k, s) && Sane(k, s) && NoStaleTake(k, s, acts)
    ensures Exclusive(k, Run(k, s, acts)) && Sane(k, Run(k, s, acts))
  {
    if acts != [] {
      var prior, a := acts[..|acts| - 1], acts[|acts| - 1];
      forall n | 0 <= n < |prior| && prior[n].Write? ensures !StaleTake(Run(k, s, prior[..n]), prior[n].p) {
        assert prior[..n] == acts[..n] && prior[n] == acts[n];
      }
      FreshRunsExclude(k, s, prior);
      var v := Run(k, s, prior);
      NextStaysSane(k, v, a);
      if Enabled(k, v, a) {
        if a.Write? {
          assert acts[..|acts| - 1] == prior;
          WriteKeepsExclusive(k, v, a.p);
        } else {
          OtherActsKeepExclusive(k, v, a);
        }
      }
    }
  }

  /** A stale take from a holder whose lease is live. */
  predicate Usurps(k: Params, s: State, a: Act) {
    a.Write? && Enabled(k, s, a) && StaleTake(s, a.p) && Live(k, s, s.row.value.holder)
  }

  ghost predicate NeverUsurps(k: Params, s: State, acts: seq<Act>) {
    forall n | 0 <= n < |acts| :: !Usurps(k, Run(k, s, acts[..n]), acts[n])
  }

  ghost predicate ExclusiveThroughout(k: Params, s: State, acts: seq<Act>) {
    forall n | 0 <= n <= |acts| :: Exclusive(k, Run(k, s, acts[..n]))
  }

  lemma ThroughoutOnward(k: Params, s: State, acts: seq<Act>)
    requires acts != []
    ensures var prior, a := acts[..|acts| - 1], acts[|acts| - 1];
            && (NeverUsurps(k, s, acts) <==> NeverUsurps(k, s, prior) && !Usurps(k, Run(k, s, prior), a))
            && (ExclusiveThroughout(k, s, acts) <==> ExclusiveThroughout(k, s, prior) && Exclusive(k, Run(k, s, acts)))
  {
    hide Usurps, Exclusive, Run;
    var prior, a := acts[..|acts| - 1], acts[|acts| - 1];
    assert acts[..|acts|] == acts;
    forall n | 0 <= n <= |prior| ensures prior[..n] == acts[..n] {}
    forall n | 0 <= n < |prior| ensures prior[n] == acts[n] {}
    if NeverUsurps(k, s, acts) {
      assert !Usurps(k, Run(k, s, acts[..|prior|]), acts[|prior|]);
      forall n | 0 <= n < |prior| ensures !Usurps(k, Run(k, s, prior[..n]), prior[n]) {
        assert !Usurps(k, Run(k, s, acts[..n]), acts[n]);
      }
    }
    if ExclusiveThroughout(k, s, acts) {
      assert Exclusive(k, Run(k, s, acts[..|acts|]));
      forall n | 0 <= n <= |prior| ensures Exclusive(k, Run(k, s, prior[..n])) {
        assert Exclusive(k, Run(k, s, acts[..n]));
      }
    }
    if ExclusiveThroughout(k, s, prior) && Exclusive(k, Run(k, s, acts)) {
      forall n | 0 <= n <= |acts| ensures Exclusive(k, Run(k, s, acts[..n])) {
        if n < |acts| { assert Exclusive(k, Run(k, s, prior[..n])); }
      }
    }
  }

  /** A run is exclusive at every point exactly when no write of it is a stale take from a live
      holder. */
  lemma {:induction false} ExclusiveThroughoutIff(k: Params, s: State, acts: seq<Act>)
    requires Exclusive(k, s) && Sane(k, s)
    ensures ExclusiveThroughout(k, s, acts) <==> NeverUsurps(k, s, acts)
    ensures Sane(k, Run(k, s, acts))
  {
    hide Exclusive, Sane, Usurps, Live, StaleTake, NeverUsurps, ExclusiveThroughout;
    if acts == [] {
      assert ExclusiveThroughout(k, s, acts) && NeverUsurps(k, s, acts) by { NothingUsurps(k, s); }
    } else {
      var prior, a := acts[..|acts| - 1], acts[|acts| - 1];
      ExclusiveThroughoutIff(k, s, prior);
      ThroughoutOnward(k, s, acts);
      var v := Run(k, s, prior);
      NextStaysSane(k, v, a);
      if ExclusiveThroughout(k, s, prior) {
        AtTheEnd(k, s, prior);
        OneActExcludesIff(k, v, a);
      }
    }
  }

  lemma NothingUsurps(k: Params, s: State)
    requires Exclusive(k, s)
    ensures ExclusiveThroughout(k, s, []) && NeverUsurps(k, s, [])
  {
    hide Exclusive;
  }

  lemma AtTheEnd(k: Params, s: State, acts: seq<Act>)
    requires ExclusiveThroughout(k, s, acts)
    ensures Exclusive(k, Run(k, s, acts))
  {
    hide Exclusive, Run;
    assert acts[..|acts|] == acts;
  }

  lemma OneActExcludesIff(k: Params, s: State, a: Act)
    requires Exclusive(k, s) && Sane(k, s)
    ensures Exclusive(k, Next(k, s, a)) <==> !Usurps(k, s, a)
  {
    hide Exclusive, Sane, Live, WriteSucceeds;
    if Enabled(k, s, a) {
      if a.Write? { WriteKeepsExclusive(k, s, a.p); } else { OtherActsKeepExclusive(k, s, a); }
    }
  }

  // ----- holders that claim at most once -----

  /** No holder id begins a second claim. */
  ghost predicate ClaimsOnce(k: Params, s: State, acts: seq<Act>) {
    forall n | 0 <= n < |acts| :: acts[n].ReadRow? ==> acts[n].p !in Run(k, s, acts[..n]).started
  }

  /** A holder id in mid-claim never stood in the row; a row that was read is either still the
      row or will never be again. */
  ghost predicate Unrepeated(s: State) {
    && s.written <= s.started
    && (s.row.Some? ==> s.row.value.holder in s.written)
    && forall p ::
         var st := ProcOf(s, p).stage;
         !st.Idle? ==>
           && p in s.started && p !in s.written
           && (st.seen.Some? ==>
                 && st.seen.value.holder in s.written
                 && (s.row.Some? && s.row.value.holder == st.seen.value.holder ==> s.row == st.seen))
  }

  lemma NextStaysUnrepeated(k: Params, s: State, a: Act)
    requires Unrepeated(s) && (a.ReadRow? ==> a.p !in s.started)
    ensures Unrepeated(Next(k, s, a))
  {
    var t := Next(k, s, a);
    forall q ensures
      var st := ProcOf(t, q).stage;
      !st.Idle? ==>
        && q in t.started && q !in t.written
        && (st.seen.Some? ==>
              && st.seen.value.holder in t.written
              && (t.row.Some? && t.row.value.holder == st.seen.value.holder ==> t.row == st.seen))
    {
      var before := ProcOf(s, q).stage;
      assert !before.Idle? ==> q in s.started && q !in s.written;
    }
  }

  lemma UnrepeatedIsFresh(s: State, p: string)
    requires Unrepeated(s)
    ensures !StaleTake(s, p)
  {
    var st := ProcOf(s, p).stage;
    assert !st.Idle? ==> p !in s.written;
  }

  /** The start: nobody is in mid-claim or believes in a lease, and whatever row an earlier run
      left behind belongs to an id that is no longer used. */
  ghost predicate Start(s: State) {
    && (forall p :: ProcOf(s, p) == Proc(Idle, None))
    && s.written == s.started && (s.row.Some? ==> s.row.value.holder in s.written)
  }

  /** The lock excludes: over every interleaving in which each holder id claims at most once,
      any process whose granted lease is still live is the row's holder, so there is at most one. */
  lemma {:induction false} LockExcludes(k: Params, s: State, acts: seq<Act>)
    requires Start(s) && ClaimsOnce(k, s, acts)
    ensures Unrepeated(Run(k, s, acts)) && Exclusive(k, Run(k, s, acts)) && Sane(k, Run(k, s, acts))
    ensures forall p, q :: Live(k, Run(k, s, acts), p) && Live(k, Run(k, s, acts), q) ==> p == q
  {
    if acts != [] {
      var prior, a := acts[..|acts| - 1], acts[|acts| - 1];
      forall n | 0 <= n < |prior| && prior[n].ReadRow? ensures prior[n].p !in Run(k, s, prior[..n]).started {
        assert prior[..n] == acts[..n] && prior[n] == acts[n];
      }
      LockExcludes(k, s, prior);
      var v := Run(k, s, prior);
      assert acts[..|acts| - 1] == prior;
      NextStaysUnrepeated(k, v, a);
      NextStaysSane(k, v, a);
      if Enabled(k, v, a) {
        if a.Write? {
          UnrepeatedIsFresh(v, a.p);
          WriteKeepsExclusive(k, v, a.p);
        } else {
          OtherActsKeepExclusive(k, v, a);
        }
      }
    }
  }

  /** A holder that refreshes between another's read and write loses the row while its lease
      runs: the compare-and-set looks at the holder only. `a`'s first lease ends at 10, `b` reads
      it then, `a` refreshes until 20, and `b` still takes the row. */
  lemma RefreshBreaksExclusion(a: string, b: string)
    requires a != b
    ensures var k := Params(10, 0);
            var start := State(0, None, map[], {}, {});
            var end := Run(k, start, RefreshRace(a, b));
            Start(start) && Live(k, end, a) && Live(k, end, b) && !Exclusive(k, end)
  {
    hide Live, Exclusive, Next;
    var k := Params(10, 0);
    var s0 := State(0, None, map[], {}, {});
    var s3 := Claimed(State(0, None, map[], {}, {}), a, 10);
    var s6 := Waiting(s3, b);
    RunThree(k, s0, FirstClaim(a));
    RunThree(k, s3, SlowRead(b));
    RunThree(k, s6, Refresh(a));
    RaceStates(a, b);
    RunFromConcat(k, s0, FirstClaim(a), SlowRead(b));
    RunFromConcat(k, s0, FirstClaim(a) + SlowRead(b), Refresh(a));
    RunIsRunFrom(k, s0, FirstClaim(a) + SlowRead(b) + Refresh(a));
    assert RefreshRace(a, b)[..9] == FirstClaim(a) + SlowRead(b) + Refresh(a);
  }

  function FirstClaim(a: string): seq<Act> { [ReadRow(a), SampleClock(a, 0), Write(a)] }

  function SlowRead(b: string): seq<Act> { [Pass(10), ReadRow(b), SampleClock(b, 10)] }

  function Refresh(a: string): seq<Act> { [ReadRow(a), SampleClock(a, 10), Write(a)] }

  function RefreshRace(a: string, b: string): seq<Act> {
    FirstClaim(a) + SlowRead(b) + Refresh(a) + [Write(b)]
  }

  function Claimed(s: State, a: string, until: int): State {
    State(s.clock, Some(Row(a, until)), s.procs[a := Proc(Idle, Some(until))], s.written + {a}, s.started + {a})
  }

  function Waiting(s: State, b: string): State {
    State(10, s.row, s.procs[b := Proc(Sampled(s.row, 10), None)], s.written, s.started + {b})
  }

  lemma RaceStates(a: string, b: string)
    requires a != b
    ensures var k := Params(10, 0);
            var s0 := State(0, None, map[], {}, {});
            var s3 := Claimed(s0, a, 10);
            var s6 := Waiting(s3, b);
            var s9 := Claimed(s6, a, 20);
            var end := Next(k, s9, Write(b));
            && Next(k, Next(k, Next(k, s0, ReadRow(a)), SampleClock(a, 0)), Write(a)) == s3
            && Next(k, Next(k, Next(k, s3, Pass(10)), ReadRow(b)), SampleClock(b, 10)) == s6
            && Next(k, Next(k, Next(k, s6, ReadRow(a)), SampleClock(a, 10)), Write(a)) == s9
            && Live(k, end, a) && Live(k, end, b) && !Exclusive(k, end)
  {
    hide Next, Exclusive, Live;
    ClaimFresh(a);
    ReadExpired(a, b);
    RefreshAgain(a, b);
    TakenOver(a, b);
  }

  lemma ClaimFresh(a: string)
    ensures var k, s0 := Params(10, 0), State(0, None, map[], {}, {});
            Next(k, Next(k, Next(k, s0, ReadRow(a)), SampleClock(a, 0)), Write(a)) == Claimed(s0, a, 10)
  {
    var k, s0 := Params(10, 0), State(0, None, map[], {}, {});
    assert Next(k, Next(k, s0, ReadRow(a)), SampleClock(a, 0)).procs[a] == Proc(Sampled(None, 0), None);
  }

  lemma ReadExpired(a: string, b: string)
    requires a != b
    ensures var k, s3 := Params(10, 0), Claimed(State(0, None, map[], {}, {}), a, 10);
            Next(k, Next(k, Next(k, s3, Pass(10)), ReadRow(b)), SampleClock(b, 10)) == Waiting(s3, b)
  {
  }

  lemma RefreshAgain(a: string, b: string)
    requires a != b
    ensures var k, s6 := Params(10, 0), Waiting(Claimed(State(0, None, map[], {}, {}), a, 10), b);
            Next(k, Next(k, Next(k, s6, ReadRow(a)), SampleClock(a, 10)), Write(a)) == Claimed(s6, a, 20)
  {
  }

  lemma TakenOver(a: string, b: string)
    requires a != b
    ensures var s6 := Waiting(Claimed(State(0, None, map[], {}, {}), a, 10), b);
            var k := Params(10, 0);
            var end := Next(k, Claimed(s6, a, 20), Write(b));
            Live(k, end, a) && Live(k, end, b) && !Exclusive(k, end)
  {
  }

  lemma RunThree(k: Params, s: State, acts: seq<Act>)
    requires |acts| == 3
    ensures RunFrom(k, s, acts) == Next(k, Next(k, Next(k, s, acts[0]), acts[1]), acts[2])
  {
    var t := Next(k, s, acts[0]);
    var u := Next(k, t, acts[1]);
    assert acts[1..][0] == acts[1] && acts[1..][1..][0] == acts[2];
    assert RunFrom(k, u, acts[1..][1..]) == Next(k, u, acts[2]);
    assert RunFrom(k, t, acts[1..]) == Next(k, u, acts[2]);
  }

  /** `Run`, from the front. */
  function RunFrom(k: Params, s: State, acts: seq<Act>): State
    decreases |acts|
  {
    if acts == [] then s else RunFrom(k, Next(k, s, acts[0]), acts[1..])
  }

  lemma {:induction false} RunFromConcat(k: Params, s: State, a: seq<Act>, b: seq<Act>)
    ensures RunFrom(k, s, a + b) == RunFrom(k, RunFrom(k, s, a), b)
    decreases |a|
  {
    if a == [] {
      assert a + b == b;
    } else {
      assert (a + b)[1..] == a[1..] + b;
      RunFromConcat(k, Next(k, s, a[0]), a[1..], b);
    }
  }

  lemma {:induction false} RunIsRunFrom(k: Params, s: State, acts: seq<Act>)
    ensures Run(k, s, acts) == RunFrom(k, s, acts)
  {
    if acts != [] {
      var prior, last := acts[..|acts| - 1], [acts[|acts| - 1]];
      RunIsRunFrom(k, s, prior);
      RunFromConcat(k, s, prior, last);
      assert acts == prior + last;
    }
  }

  /** A late release of a lease that was taken over leaves the new holder's row alone. */
  lemma ReleaseKeepsOthers(k: Params, s: State, p: string, q: string)
    requires p != q && Exclusive(k, s) && Live(k, s, q) && Enabled(k, s, Release(p))
    ensures Do(k, s, Release(p)).row == s.row && Live(k, Do(k, s, Release(p)), q)
  {
  }

  /** A release deletes the releaser's row and no other, and ends its lease and nobody else's. */
  lemma ReleaseFreesRow(k: Params, s: State, p: string)
    requires Enabled(k, s, Release(p))
    ensures var t := Next(k, s, Release(p));
            && (s.row.Some? && s.row.value.holder == p ==> t.row.None?)
            && (s.row.None? || s.row.value.holder != p ==> t.row == s.row)
            && ProcOf(t, p).lease.None? && t.clock == s.clock
            && forall q | q != p :: ProcOf(t, q) == ProcOf(s, q)
  {
  }

  /** A claim that is refused or loses its race leaves the row alone, and its process as it was
      before the claim. */
  lemma LostClaimChangesNothing(k: Params, s: State, p: string)
    requires ProcOf(s, p).stage.Sampled? && !WriteSucceeds(s, p)
    ensures var t := Next(k, s, Write(p));
            && t.row == s.row && ProcOf(t, p) == Proc(Idle, ProcOf(s, p).lease)
            && forall q | q != p :: ProcOf(t, q) == ProcOf(s, q)
  {
  }

  /** A process can crash at any time: its claim and its lease are forgotten, its row is not. */
  lemma CrashForgets(k: Params, s: State, p: string)
    ensures var t := Next(k, s, Crash(p));
            && t.row == s.row && ProcOf(t, p) == Proc(Idle, None) && forall q | q != p :: ProcOf(t, q) == ProcOf(s, q)
  {
  }

  /** Right after the holder's release, any other process that claims undisturbed gets the lease,
      however long the released one still had to run. */
  lemma ReleasedIsGranted(k: Params, s: State, p: string, q: string, now: int)
    requires p != q && s.row.Some? && s.row.value.holder == p
    requires Enabled(k, s, Release(p)) && ProcOf(s, q).stage.Idle?
    requires s.clock - k.skew <= now <= s.clock + k.skew
    ensures var t := Run(k, s, [Release(p), ReadRow(q), SampleClock(q, now), Write(q)]);
            t.row == Some(Row(q, now + k.leaseMs)) && ProcOf(t, q).lease == Some(now + k.leaseMs)
            && ProcOf(t, p).lease.None?
  {
    hide Run, RunFrom, Next;
    var acts := [ReadRow(q), SampleClock(q, now), Write(q)];
    var all := [Release(p)] + acts;
    var u := Next(k, s, Release(p));
    RunIsRunFrom(k, s, all);
    RunFromConcat(k, s, [Release(p)], acts);
    RunFromOne(k, s, Release(p));
    RunThree(k, u, acts);
    ReleaseFreesRow(k, s, p);
    FreeIsClaimed(k, u, q, now);
    assert all == [Release(p), ReadRow(q), SampleClock(q, now), Write(q)];
  }

  lemma RunFromOne(k: Params, s: State, a: Act)
    ensures RunFrom(k, s, [a]) == Next(k, s, a)
  {
    hide Next;
    assert [a][1..] == [];
  }

  lemma FreeIsClaimed(k: Params, s: State, q: string, now: int)
    requires s.row.None? && ProcOf(s, q).stage.Idle? && s.clock - k.skew <= now <= s.clock + k.skew
    ensures var t := Next(k, Next(k, Next(k, s, ReadRow(q)), SampleClock(q, now)), Write(q));
            t.row == Some(Row(q, now + k.leaseMs)) && ProcOf(t, q).lease == Some(now + k.leaseMs)
            && forall x | x != q :: ProcOf(t, x) == ProcOf(s, x)
  {
    var u := Next(k, s, ReadRow(q));
    assert ProcOf(u, q).stage == Read(None) && u.row.None? && u.clock == s.clock;
    var v := Next(k, u, SampleClock(q, now));
    assert ProcOf(v, q).stage == Sampled(None, now) && v.row.None?;
  }

  // ----- the claim as the program makes it -----

  class LockTable {
    var row: Option<Row>

    constructor (row: Option<Row>)
      ensures this.row == row
    {
      this.row := row;
    }

    /** Fails when the unique index already has the key. */
    method InsertRow(r: Row) returns (ok: bool)
      modifies this
      ensures ok == old(row).None? && row == if ok then Some(r) else old(row)
    {
      ok := row.None?;
      if ok { row := Some(r); }
    }

    /** `UPDATE ... WHERE holder = current`; the number of rows it changed. */
    method UpdateWhere(current: string, r: Row) returns (affected: nat)
      modifies this
      ensures var hit := old(row).Some? && old(row).value.holder == current;
              affected == (if hit then 1 else 0) && row == if hit then Some(r) else old(row)
    {
      affected := 0;
      if row.Some? && row.value.holder == current { row, affected := Some(r), 1; }
    }

    method DeleteWhere(holder: string)
      modifies this
      ensures row == if old(row).Some? && old(row).value.holder == holder then None else old(row)
    {
      if row.Some? && row.value.holder == holder { row := None; }
    }

    /** Undisturbed, the claim is its three steps run back to back: it is granted exactly when
        the row is free, expired or its own, and then the row is the new lease. */
    method AcquireLock(holder: string, now: int, leaseMs: int) returns (granted: bool)
      modifies this
      ensures var s := State(now, old(row), map[], {}, {});
              var t := Run(Params(leaseMs, 0), s, [ReadRow(holder), SampleClock(holder, now), Write(holder)]);
              row == t.row && (granted <==> ProcOf(t, holder).lease.Some?)
      ensures granted <==> old(row).None? || old(row).value.expires <= now || old(row).value.holder == holder
      ensures row == if granted then Some(Row(holder, now + leaseMs)) else old(row)
    {
      UndisturbedClaim(State(now, row, map[], {}, {}), holder, leaseMs);
      var current := row;
      match Decide(current, now, holder)
      case Held(_, _) => granted := false;
      case Insert => granted := InsertRow(Row(holder, now + leaseMs));
      case Cas(h) =>
        var affected := UpdateWhere(h, Row(holder, now + leaseMs));
        granted := affected != 0;
    }

    method ReleaseLock(holder: string)
      modifies this
      ensures row == Do(Params(0, 0), State(0, old(row), map[], {}, {}), Release(holder)).row
      ensures row == if old(row).Some? && old(row).value.holder == holder then None else old(row)
    {
      DeleteWhere(holder);
    }
  }

  lemma UndisturbedClaim(s: State, p: string, leaseMs: int)
    requires s == State(s.clock, s.row, map[], {}, {})
    ensures var t := Run(Params(leaseMs, 0), s, [ReadRow(p), SampleClock(p, s.clock), Write(p)]);
            if Decide(s.row, s.clock, p).Held? then t.row == s.row && ProcOf(t, p).lease.None?
            else t.row == Some(Row(p, s.clock + leaseMs)) && ProcOf(t, p).lease.Some?
  {
    hide Run, RunFrom, Next;
    var k := Params(leaseMs, 0);
    var acts := [ReadRow(p), SampleClock(p, s.clock), Write(p)];
    RunIsRunFrom(k, s, acts);
    RunThree(k, s, acts);
    SampledClaim(k, s, p);
  }

  lemma SampledClaim(k: Params, s: State, p: string)
    requires s == State(s.clock, s.row, map[], {}, {})
    ensures var t := Next(k, Next(k, Next(k, s, ReadRow(p)), SampleClock(p, s.clock)), Write(p));
            if Decide(s.row, s.clock, p).Held? then t.row == s.row && ProcOf(t, p).lease.None?
            else t.row == Some(Row(p, s.clock + k.leaseMs)) && ProcOf(t, p).lease.Some?
  {
    var u := Next(k, s, ReadRow(p));
    assert ProcOf(u, p) == Proc(Read(s.row), None) && u.row == s.row && u.clock == s.clock;
    var v := Next(k, u, SampleClock(p, s.clock));
    assert ProcOf(v, p) == Proc(Sampled(s.row, s.clock), None) && v.row == s.row;
  }
}
