/** The pool of test databases: a semaphore with one permit per slot, and a stack of free slots.
    Checkouts run concurrently; each step below is atomic. */
module TestPoolModel {
  import opened Text

  /** Where a checkout is: it has a permit, then also a slot it sets up, then is handed out, and
      in the end has returned its slot but not yet its permit. */
  datatype Stage = Permitted | SettingUp(slot: nat) | HandedOut(slot: nat) | Leaving

  /** `starved`: some checkout held a permit and found no slot. */
  datatype State = State(permits: nat, free: seq<nat>, at: map<nat, Stage>, starved: bool)

  datatype Act =
    | Acquire(p: nat)
    | Pop(p: nat)
    | Fail(p: nat)
    | HandOut(p: nat)
    | PushBack(p: nat)
    | DropPermit(p: nat)
    | Cancel(p: nat)

  predicate Enabled(s: State, a: Act) {
    match a
    case Acquire(p) => p !in s.at && s.permits > 0
    case Pop(p) => p in s.at && s.at[p].Permitted?
    case Fail(p) => p in s.at && s.at[p].SettingUp?
    case HandOut(p) => p in s.at && s.at[p].SettingUp?
    case PushBack(p) => p in s.at && s.at[p].HandedOut?
    case DropPermit(p) => p in s.at && s.at[p].Leaving?
    case Cancel(p) => p in s.at && s.at[p].SettingUp?
  }

  /** A cancelled checkout drops its permit with its future, and nothing pushes its slot back. */
  function Do(s: State, a: Act): State
    requires Enabled(s, a)
  {
    match a
    case Acquire(p) => s.(permits := s.permits - 1, at := s.at[p := Permitted])
    case Pop(p) =>
      if s.free == [] then s.(at := s.at[p := Leaving], starved := true)
      else s.(free := s.free[..|s.free| - 1], at := s.at[p := SettingUp(s.free[|s.free| - 1])])
    case Fail(p) => s.(free := s.free + [s.at[p].slot], at := s.at[p := Leaving])
    case HandOut(p) => s.(at := s.at[p := HandedOut(s.at[p].slot)])
    case PushBack(p) => s.(free := s.free + [s.at[p].slot], at := s.at[p := Leaving])
    case DropPermit(p) => s.(permits := s.permits + 1, at := s.at - {p})
    case Cancel(p) => s.(permits := s.permits + 1, at := s.at - {p})
  }

  function Next(s: State, a: Act): State {
    if Enabled(s, a) then Do(s, a) else s
  }

  function Run(s: State, acts: seq<Act>): State {
    if acts == [] then s else Next(Run(s, acts[..|acts| - 1]), acts[|acts| - 1])
  }

  /** `size - 1` down to 0. */
  function Countdown(size: nat): (r: seq<nat>)
    ensures |r| == size && forall i | 0 <= i < size :: r[i] == size - 1 - i
  {
    if size == 0 then [] else [size - 1] + Countdown(size - 1)
  }

  function Built(size: nat): State {
    State(size, Countdown(size), map[], false)
  }

  // ----- what every step keeps -----

  predicate Owns(s: State, p: nat, slot: nat) {
    p in s.at && (s.at[p].SettingUp? || s.at[p].HandedOut?) && s.at[p].slot == slot
  }

  function Owners(s: State): set<nat> {
    set p | p in s.at && (s.at[p].SettingUp? || s.at[p].HandedOut?)
  }

  ghost predicate NoSharing(s: State) {
    && (forall i, j | 0 <= i < j < |s.free| :: s.free[i] != s.free[j])
    && (forall p, q, n | Owns(s, p, n) && Owns(s, q, n) :: p == q)
    && (forall p, n | Owns(s, p, n) :: n !in s.free)
  }

  /** Free and owned slots together are exactly the pool's slots. */
  ghost predicate Complete(s: State, size: nat) {
    forall n: nat :: n < size <==> Placed(s, n)
  }

  ghost predicate Placed(s: State, n: nat) {
    n in s.free || exists p: nat :: Owns(s, p, n)
  }

  /** Permits and slots are accounted for. */
  ghost predicate Balanced(s: State, size: nat) {
    s.permits + |s.at| == size && |s.free| + |Owners(s)| == size
  }

  ghost predicate Good(s: State, size: nat) {
    NoSharing(s) && Complete(s, size) && Balanced(s, size) && !s.starved
  }

  lemma BuiltIsGood(size: nat)
    ensures Good(Built(size), size)
  {
    var s := Built(size);
    assert Owners(s) == {};
    forall n: nat ensures n < size <==> Placed(s, n) {
      if n < size { assert s.free[size - 1 - n] == n; }
    }
  }

  /** A permit always comes with a slot: checkouts without one leave room for it. */
  lemma PermitFindsSlot(s: State, size: nat, p: nat)
    requires Balanced(s, size) && p in s.at && s.at[p].Permitted?
    ensures s.free != []
  {
    assert Owners(s) <= s.at.Keys - {p};
    Fits(Owners(s), s.at.Keys - {p});
    assert |s.at.Keys - {p}| == |s.at| - 1;
  }

  lemma Fits(a: set<nat>, b: set<nat>)
    requires a <= b
    ensures |a| <= |b|
  {
    assert b == a + (b - a);
    assert |b| == |a| + |b - a|;
  }

  predicate Owning(stage: Stage) {
    stage.SettingUp? || stage.HandedOut?
  }

  /** A checkout that changes stage is counted among the owners exactly when it now owns. */
  lemma Restaged(s: State, t: State, p: nat, stage: Stage)
    requires p in s.at && t.at == s.at[p := stage]
    ensures |t.at| == |s.at|
    ensures |Owners(t)| == |Owners(s)| + (if Owning(stage) then 1 else 0) - (if Owning(s.at[p]) then 1 else 0)
  {
    RestagedOwners(s, t, p, stage);
    hide Owners;
    WithOrWithout(Owners(s), p);
    WithOrWithout(Owners(t), p);
    assert t.at.Keys == s.at.Keys && |t.at.Keys| == |t.at| && |s.at.Keys| == |s.at|;
  }

  lemma RestagedOwners(s: State, t: State, p: nat, stage: Stage)
    requires p in s.at && t.at == s.at[p := stage]
    ensures Owners(t) - {p} == Owners(s) - {p}
    ensures (p in Owners(t) <==> Owning(stage)) && (p in Owners(s) <==> Owning(s.at[p]))
  {
  }

  lemma WithOrWithout(a: set<nat>, p: nat)
    ensures |a| == |a - {p}| + (if p in a then 1 else 0)
  {
    if p in a { assert a == (a - {p}) + {p}; } else { assert a - {p} == a; }
  }

  lemma Joins(s: State, t: State, p: nat)
    requires p !in s.at && t.at == s.at[p := Permitted]
    ensures |t.at| == |s.at| + 1 && |Owners(t)| == |Owners(s)|
  {
    assert t.at.Keys == s.at.Keys + {p} && |t.at.Keys| == |t.at| && |s.at.Keys| == |s.at|;
    assert Owners(t) == Owners(s);
  }

  lemma Departs(s: State, t: State, p: nat)
    requires p in s.at && s.at[p].Leaving? && t.at == s.at - {p}
    ensures |t.at| == |s.at| - 1 && |Owners(t)| == |Owners(s)|
  {
    assert t.at.Keys == s.at.Keys - {p} && |t.at.Keys| == |t.at| && |s.at.Keys| == |s.at|;
    assert Owners(t) == Owners(s);
  }

  lemma StepKeepsBalanced(s: State, size: nat, a: Act)
    requires Balanced(s, size) && Enabled(s, a) && !a.Cancel?
    ensures Balanced(Do(s, a), size) && Do(s, a).starved == s.starved
  {
    hide Owners;
    var t := Do(s, a);
    if a.Acquire? {
      Joins(s, t, a.p);
    } else if a.DropPermit? {
      Departs(s, t, a.p);
    } else {
      if a.Pop? { PermitFindsSlot(s, size, a.p); }
      Restaged(s, t, a.p, t.at[a.p]);
    }
  }

  lemma TakingTheTop(s: State, t: State, p: nat)
    requires NoSharing(s) && s.free != [] && p in s.at && s.at[p].Permitted?
    requires t == Do(s, Pop(p))
    ensures NoSharing(t) && forall n: nat :: Placed(s, n) <==> Placed(t, n)
  {
    var slot := s.free[|s.free| - 1];
    assert s.free == t.free + [slot] && slot in s.free;
    assert forall q: nat, n: nat :: Owns(t, q, n) <==> (if q == p then n == slot else Owns(s, q, n));
    assert Owns(t, p, slot);
    forall n: nat ensures Placed(s, n) <==> Placed(t, n) {
      if q: nat :| Owns(s, q, n) { assert Owns(t, q, n); }
    }
  }

  lemma GivingBack(s: State, t: State, p: nat)
    requires NoSharing(s) && p in s.at && Owning(s.at[p])
    requires t.free == s.free + [s.at[p].slot] && t.at == s.at[p := Leaving]
    ensures NoSharing(t) && forall n: nat :: Placed(s, n) <==> Placed(t, n)
  {
    var slot := s.at[p].slot;
    assert Owns(s, p, slot) && slot in t.free;
    assert forall q: nat, n: nat :: Owns(t, q, n) <==> q != p && Owns(s, q, n);
    forall n: nat ensures Placed(s, n) <==> Placed(t, n) {
      if q: nat :| Owns(s, q, n) && q != p { assert Owns(t, q, n); }
    }
  }

  lemma KeepingOwners(s: State, t: State)
    requires NoSharing(s) && t.free == s.free
    requires forall q: nat, n: nat :: Owns(t, q, n) <==> Owns(s, q, n)
    ensures NoSharing(t) && forall n: nat :: Placed(s, n) <==> Placed(t, n)
  {
    forall n: nat ensures Placed(s, n) <==> Placed(t, n) {
      if q: nat :| Owns(s, q, n) { assert Owns(t, q, n); }
    }
  }

  lemma StepMovesSlots(s: State, size: nat, a: Act)
    requires NoSharing(s) && Complete(s, size) && Balanced(s, size) && Enabled(s, a) && !a.Cancel?
    ensures NoSharing(Do(s, a)) && Complete(Do(s, a), size)
  {
    hide Balanced, NoSharing, Placed;
    var t := Do(s, a);
    if a.Pop? {
      PermitFindsSlot(s, size, a.p);
      TakingTheTop(s, t, a.p);
    } else if a.Fail? || a.PushBack? {
      GivingBack(s, t, a.p);
    } else {
      KeepingOwners(s, t);
    }
  }

  /** Over every interleaving without a cancelled checkout: no two checkouts share a slot, free
      and owned slots are exactly the pool's, and no permit holder ever lacks a slot. */
  lemma {:induction false} PoolStaysGood(size: nat, acts: seq<Act>)
    requires forall a | a in acts :: !a.Cancel?
    ensures Good(Run(Built(size), acts), size)
  {
    hide NoSharing, Complete, Balanced;
    if acts == [] {
      BuiltIsGood(size);
    } else {
      var prior, a := acts[..|acts| - 1], acts[|acts| - 1];
      PoolStaysGood(size, prior);
      var s := Run(Built(size), prior);
      assert a in acts;
      if Enabled(s, a) {
        StepKeepsBalanced(s, size, a);
        StepMovesSlots(s, size, a);
      }
    }
  }

  // ----- cancellation -----

  /** Some checkout of the run is cancelled while it sets up. */
  ghost predicate Cancels(s: State, acts: seq<Act>) {
    exists n | 0 <= n < |acts| :: acts[n].Cancel? && Enabled(Run(s, acts[..n]), acts[n])
  }

  lemma CancelsOnward(s: State, acts: seq<Act>)
    requires acts != []
    ensures var prior, a := acts[..|acts| - 1], acts[|acts| - 1];
            Cancels(s, acts) <==> Cancels(s, prior) || (a.Cancel? && Enabled(Run(s, prior), a))
  {
    hide Run, Enabled;
    var prior := acts[..|acts| - 1];
    forall n | 0 <= n < |prior| ensures prior[..n] == acts[..n] && prior[n] == acts[n] {}
    if n :| 0 <= n < |acts| && acts[n].Cancel? && Enabled(Run(s, acts[..n]), acts[n]) && n < |prior| {
      assert prior[n].Cancel? && Enabled(Run(s, prior[..n]), prior[n]);
    }
    if n :| 0 <= n < |prior| && prior[n].Cancel? && Enabled(Run(s, prior[..n]), prior[n]) {
      assert acts[n].Cancel? && Enabled(Run(s, acts[..n]), acts[n]);
    }
  }

  /** A cancelled checkout's slot is neither free nor owned. */
  lemma CancelLosesSlot(s: State, size: nat, p: nat)
    requires Good(s, size) && Enabled(s, Cancel(p))
    ensures s.at[p].slot < size && !Placed(Do(s, Cancel(p)), s.at[p].slot)
  {
    var slot := s.at[p].slot;
    assert Owns(s, p, slot);
    assert Placed(s, slot);
    var t := Do(s, Cancel(p));
    forall q: nat ensures !Owns(t, q, slot) {
      assert Owns(t, q, slot) ==> q != p && Owns(s, q, slot);
    }
  }

  /** And it stays so, whatever happens afterwards. */
  lemma LostStaysLost(s: State, a: Act, slot: nat)
    requires !Placed(s, slot)
    ensures !Placed(Next(s, a), slot)
  {
    var t := Next(s, a);
    forall q: nat ensures !Owns(t, q, slot) {
      assert !Owns(s, q, slot);
      if Enabled(s, a) && a.Pop? && s.free != [] { assert s.free[|s.free| - 1] in s.free; }
    }
    if Enabled(s, a) && (a.Fail? || a.PushBack?) { assert !Owns(s, a.p, slot); }
  }

  /** A slot of the pool that is lost. */
  ghost predicate Lost(s: State, size: nat) {
    exists n: nat | n < size :: !Placed(s, n)
  }

  /** Every run is good until a checkout is cancelled, and has lost a slot ever after. */
  lemma {:induction false} GoodOrLost(size: nat, acts: seq<Act>)
    ensures Cancels(Built(size), acts) ==> Lost(Run(Built(size), acts), size)
    ensures !Cancels(Built(size), acts) ==> Good(Run(Built(size), acts), size)
  {
    hide NoSharing, Complete, Balanced, Placed, Cancels;
    if acts == [] {
      assert !Cancels(Built(size), acts) by { NoCancels(size); }
      BuiltIsGood(size);
    } else {
      var prior, a := acts[..|acts| - 1], acts[|acts| - 1];
      GoodOrLost(size, prior);
      CancelsOnward(Built(size), acts);
      var s := Run(Built(size), prior);
      if Cancels(Built(size), prior) {
        var slot: nat :| slot < size && !Placed(s, slot);
        LostStaysLost(s, a, slot);
      } else if Enabled(s, a) {
        if a.Cancel? {
          CancelLosesSlot(s, size, a.p);
        } else {
          StepKeepsBalanced(s, size, a);
          StepMovesSlots(s, size, a);
        }
      }
    }
  }

  lemma NoCancels(size: nat)
    ensures !Cancels(Built(size), [])
  {
  }

  /** The pool's slots are all accounted for, at the end of any run, exactly when no checkout was
      cancelled while it set up; then no two share a slot and none was starved. */
  lemma CompleteIffNotCancelled(size: nat, acts: seq<Act>)
    ensures var s := Run(Built(size), acts);
            && (Complete(s, size) <==> !Cancels(Built(size), acts))
            && (Good(s, size) <==> !Cancels(Built(size), acts))
  {
    hide Placed, Cancels, Run;
    GoodOrLost(size, acts);
  }

  /** A checkout that is handed out keeps its slot, and can no longer be cancelled or fail: all it
      can do is give the slot back. */
  lemma HandedOutIsKept(s: State, p: nat)
    requires Enabled(s, HandOut(p))
    ensures var t := Next(s, HandOut(p));
            && t == s.(at := t.at) && t.at == s.at[p := HandedOut(s.at[p].slot)]
            && !Enabled(t, Cancel(p)) && !Enabled(t, Fail(p)) && Enabled(t, PushBack(p))
  {
  }

  /** A checkout that runs its course, or fails while it sets up, leaves the pool as it found it. */
  lemma CourseReturns(s: State, p: nat, fails: bool)
    requires p !in s.at && s.permits > 0 && s.free != []
    ensures var acts := [Acquire(p), Pop(p)] + (if fails then [Fail(p)] else [HandOut(p), PushBack(p)]) + [DropPermit(p)];
            Run(s, acts) == s
  {
    hide Next;
    var n := |s.free| - 1;
    var slot := s.free[n];
    var a := s.(permits := s.permits - 1, at := s.at[p := Permitted]);
    var b := a.(free := s.free[..n], at := s.at[p := SettingUp(slot)]);
    CourseSteps(s, p);
    RunSnoc(s, [], Acquire(p));
    RunSnoc(s, [Acquire(p)], Pop(p));
    assert [Acquire(p)] + [Pop(p)] == [Acquire(p), Pop(p)];
    assert Run(s, [Acquire(p), Pop(p)]) == b;
    if fails {
      RunSnoc(s, [Acquire(p), Pop(p)], Fail(p));
      RunSnoc(s, [Acquire(p), Pop(p), Fail(p)], DropPermit(p));
      assert [Acquire(p), Pop(p)] + [Fail(p)] == [Acquire(p), Pop(p), Fail(p)];
    } else {
      RunSnoc(s, [Acquire(p), Pop(p)], HandOut(p));
      RunSnoc(s, [Acquire(p), Pop(p), HandOut(p)], PushBack(p));
      RunSnoc(s, [Acquire(p), Pop(p), HandOut(p), PushBack(p)], DropPermit(p));
      assert [Acquire(p), Pop(p)] + [HandOut(p)] == [Acquire(p), Pop(p), HandOut(p)];
      assert [Acquire(p), Pop(p), HandOut(p)] + [PushBack(p)] == [Acquire(p), Pop(p), HandOut(p), PushBack(p)];
      assert [Acquire(p), Pop(p)] + [HandOut(p), PushBack(p)] == [Acquire(p), Pop(p), HandOut(p), PushBack(p)];
    }
  }

  lemma RunSnoc(s: State, acts: seq<Act>, a: Act)
    ensures Run(s, acts + [a]) == Next(Run(s, acts), a)
    ensures acts == [] ==> Run(s, [a]) == Next(s, a)
  {
    hide Next;
    assert (acts + [a])[..|acts|] == acts;
    if acts == [] { assert acts + [a] == [a]; }
  }

  lemma CourseSteps(s: State, p: nat)
    requires p !in s.at && s.permits > 0 && s.free != []
    ensures var n := |s.free| - 1;
            var slot := s.free[n];
            var a := s.(permits := s.permits - 1, at := s.at[p := Permitted]);
            var b := a.(free := s.free[..n], at := s.at[p := SettingUp(slot)]);
            var c := b.(at := s.at[p := HandedOut(slot)]);
            var d := a.(free := s.free, at := s.at[p := Leaving]);
            && Next(s, Acquire(p)) == a && Next(a, Pop(p)) == b && Next(b, HandOut(p)) == c
            && Next(b, Fail(p)) == d && Next(c, PushBack(p)) == d && Next(d, DropPermit(p)) == s
  {
    var n := |s.free| - 1;
    var slot := s.free[n];
    assert s.free[..n] + [slot] == s.free;
    var at: map<nat, Stage> := s.at;
    assert at[p := Permitted][p := SettingUp(slot)] == at[p := SettingUp(slot)];
    assert at[p := SettingUp(slot)][p := HandedOut(slot)] == at[p := HandedOut(slot)];
    assert at[p := SettingUp(slot)][p := Leaving] == at[p := Leaving];
    assert at[p := HandedOut(slot)][p := Leaving] == at[p := Leaving];
    assert at[p := Leaving] - {p} == at;
  }

  function CancelledRounds(n: nat): seq<Act> {
    if n == 0 then [] else CancelledRounds(n - 1) + [Acquire(n), Pop(n), Cancel(n)]
  }

  lemma RunThree(s: State, acts: seq<Act>, a: Act, b: Act, c: Act)
    ensures Run(s, acts + [a, b, c]) == Next(Next(Next(Run(s, acts), a), b), c)
  {
    hide Next;
    assert (acts + [a, b, c])[..|acts| + 2] == acts + [a, b];
    assert (acts + [a, b])[..|acts| + 1] == acts + [a];
    assert (acts + [a])[..|acts|] == acts;
    assert Run(s, acts + [a]) == Next(Run(s, acts), a);
    assert Run(s, acts + [a, b]) == Next(Run(s, acts + [a]), b);
  }

  lemma {:induction false} RoundsDrain(size: nat, n: nat)
    requires n <= size && size > 0
    ensures Run(Built(size), CancelledRounds(n)) == State(size, Countdown(size)[..size - n], map[], false)
  {
    if n == 0 {
      assert Countdown(size)[..size] == Countdown(size);
    } else {
      RoundsDrain(size, n - 1);
      var s := Run(Built(size), CancelledRounds(n - 1));
      RunThree(Built(size), CancelledRounds(n - 1), Acquire(n), Pop(n), Cancel(n));
      var t := Next(s, Acquire(n));
      var u := Next(t, Pop(n));
      assert s.free[..|s.free| - 1] == Countdown(size)[..size - n];
      assert Next(u, Cancel(n)).at == map[];
    }
  }

  /** With cancellation, a pool of any size is drained, and a permit holder finds no slot. */
  lemma CancellationStarves(size: nat)
    requires size > 0
    ensures Run(Built(size), CancelledRounds(size) + [Acquire(0), Pop(0), DropPermit(0)]).starved
  {
    RoundsDrain(size, size);
    RunThree(Built(size), CancelledRounds(size), Acquire(0), Pop(0), DropPermit(0));
  }

  // ----- the pool as an object -----

  class TestPool {
    var permits: nat
    var slots: seq<nat>
    var at: map<nat, Stage>
    var starved: bool

    function Now(): State
      reads this
    {
      State(permits, slots, at, starved)
    }

    /** A pool without slots would block its first checkout for ever; building one panics. */
    constructor (size: nat)
      requires size >= 1
      ensures Now() == Built(size)
    {
      permits := size;
      at := map[];
      starved := false;
      new;
      var s: seq<nat> := [];
      for i := 0 to size
        invariant s + Countdown(size - i) == Countdown(size)
        invariant permits == size && at == map[] && !starved
      {
        assert s + ([size - i - 1] + Countdown(size - i - 1)) == s + [size - i - 1] + Countdown(size - i - 1);
        s := s + [size - i - 1];
      }
      slots := s;
    }

    method AcquirePermit(p: nat)
      requires Enabled(Now(), Acquire(p))
      modifies this
      ensures Now() == Do(old(Now()), Acquire(p))
    {
      permits := permits - 1;
      at := at[p := Permitted];
    }

    method PopSlot(p: nat) returns (slot: Option<nat>)
      requires Enabled(Now(), Pop(p))
      modifies this
      ensures Now() == Do(old(Now()), Pop(p))
      ensures slot.None? <==> old(slots) == []
      ensures slot.Some? ==> at[p] == SettingUp(slot.value)
    {
      if slots == [] {
        at := at[p := Leaving];
        starved := true;
        return None;
      }
      var top := slots[|slots| - 1];
      slots := slots[..|slots| - 1];
      at := at[p := SettingUp(top)];
      return Some(top);
    }

    method ReleaseSlot(p: nat)
      requires Enabled(Now(), Fail(p)) || Enabled(Now(), PushBack(p))
      modifies this
      ensures Now() == Next(Next(old(Now()), Fail(p)), PushBack(p))
    {
      slots := slots + [at[p].slot];
      at := at[p := Leaving];
    }
  }
}
