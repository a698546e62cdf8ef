/** Retrying a transaction block on conflicts: one fresh transaction per attempt. */
module TransactionRetry {
  import opened Text

  const U32_MAX := 0xFFFF_FFFF

  /** What the server and the body do in one attempt: the begin may fail, the body returns a
      value or an error, and the commit may fail, which commits nothing. */
  datatype Attempt<V, E> = Attempt(begin: Option<E>, body: Result<V, E>, commit: Option<E>)

  datatype Event = Began(n: nat) | Committed(n: nat) | RolledBack(n: nat)

  /** Saturating at the 32-bit maximum. */
  function Attempts(retries: nat): (n: nat)
    ensures n >= 1
  {
    if retries >= U32_MAX then U32_MAX else retries + 1
  }

  predicate Succeeds<V, E>(a: Attempt<V, E>) {
    a.begin.None? && a.body.Ok? && a.commit.None?
  }

  /** The error of an attempt that does not succeed. */
  function Failure<V, E>(a: Attempt<V, E>): E
    requires !Succeeds(a)
  {
    if a.begin.Some? then a.begin.value else if a.body.Err? then a.body.error else a.commit.value
  }

  function Events<V, E>(script: nat -> Attempt<V, E>, n: nat): seq<Event> {
    if script(n).begin.Some? then []
    else if Succeeds(script(n)) then [Began(n), Committed(n)]
    else [Began(n), RolledBack(n)]
  }

  /** The events of the first `n` attempts. */
  function Log<V, E>(script: nat -> Attempt<V, E>, n: nat): seq<Event> {
    if n == 0 then [] else Log(script, n - 1) + Events(script, n - 1)
  }

  /** The attempt fails in a way another attempt may cure. */
  predicate Retried<V, E>(a: Attempt<V, E>, conflict: E -> bool) {
    a.begin.None? && !Succeeds(a) && conflict(Failure(a))
  }

  /** The run ends with attempt `k`: all before it hit conflicts, and it succeeds, fails for
      good, or is the last one allowed. */
  predicate EndsAt<V, E>(script: nat -> Attempt<V, E>, conflict: E -> bool, attempts: nat, k: nat) {
    && k < attempts
    && (forall i | 0 <= i < k :: Retried(script(i), conflict))
    && (Retried(script(k), conflict) ==> k + 1 == attempts)
  }

  function ResultOf<V, E>(a: Attempt<V, E>): Result<V, E> {
    if Succeeds(a) then Ok(a.body.value) else Err(Failure(a))
  }

  method RunTransaction<V, E>(script: nat -> Attempt<V, E>, conflict: E -> bool, retries: nat)
    returns (r: Result<V, E>, log: seq<Event>)
    ensures exists k: nat :: EndsAt(script, conflict, Attempts(retries), k) && r == ResultOf(script(k)) && log == Log(script, k + 1)
  {
    var attempts := Attempts(retries);
    log := [];
    var attempt := 0;
    while attempt < attempts
      invariant 0 <= attempt < attempts
      invariant forall i | 0 <= i < attempt :: Retried(script(i), conflict)
      invariant log == Log(script, attempt)
      decreases attempts - attempt
    {
      var a := script(attempt);
      if a.begin.Some? {
        assert log + [] == log && EndsAt(script, conflict, attempts, attempt);
        return Err(a.begin.value), log;
      }
      ghost var before := log;
      log := log + [Began(attempt)];
      match a.body {
        case Ok(value) =>
          match a.commit {
            case None =>
              log := log + [Committed(attempt)];
              assert log == before + [Began(attempt), Committed(attempt)];
              assert EndsAt(script, conflict, attempts, attempt);
              return Ok(value), log;
            case Some(e) =>
              log := log + [RolledBack(attempt)];
              assert log == before + [Began(attempt), RolledBack(attempt)];
              if !(conflict(e) && attempt + 1 < attempts) {
                assert EndsAt(script, conflict, attempts, attempt);
                return Err(e), log;
              }
          }
        case Err(e) =>
          log := log + [RolledBack(attempt)];
          assert log == before + [Began(attempt), RolledBack(attempt)];
          if !(conflict(e) && attempt + 1 < attempts) {
            assert EndsAt(script, conflict, attempts, attempt);
            return Err(e), log;
          }
      }
      attempt := attempt + 1;
    }
    assert false;
  }

  // ----- what a run amounts to -----

  function Begins(log: seq<Event>): nat {
    if log == [] then 0 else (if log[0].Began? then 1 else 0) + Begins(log[1..])
  }

  function Commits(log: seq<Event>): seq<nat> {
    if log == [] then [] else (if log[0].Committed? then [log[0].n] else []) + Commits(log[1..])
  }

  lemma {:induction false} CountsConcat(a: seq<Event>, b: seq<Event>)
    ensures Begins(a + b) == Begins(a) + Begins(b) && Commits(a + b) == Commits(a) + Commits(b)
  {
    hide *;
    if a == [] {
      CountsNone();
      assert a + b == b;
      assert [] + Commits(b) == Commits(b);
    } else {
      TailConcat(a, b);
      CountsFirst(a);
      CountsFirst(a + b);
      CountsConcat(a[1..], b);
      Regroup(if a[0].Committed? then [a[0].n] else [], Commits(a[1..]), Commits(b));
    }
  }

  lemma CountsNone()
    ensures Begins([]) == 0 && Commits([]) == []
  {
  }

  lemma CountsFirst(log: seq<Event>)
    requires log != []
    ensures Begins(log) == (if log[0].Began? then 1 else 0) + Begins(log[1..])
    ensures Commits(log) == (if log[0].Committed? then [log[0].n] else []) + Commits(log[1..])
  {
  }

  lemma EventCounts<V, E>(script: nat -> Attempt<V, E>, n: nat)
    ensures Begins(Events(script, n)) <= 1
    ensures Commits(Events(script, n)) == if Succeeds(script(n)) then [n] else []
  {
    var e := Events(script, n);
    if e != [] {
      var t := e[1..];
      assert t == [e[1]] && t[1..] == [];
      assert Begins(t) == 0 && Commits(t) == if Succeeds(script(n)) then [n] else [];
    }
  }

  lemma {:induction false} LogCounts<V, E>(script: nat -> Attempt<V, E>, n: nat)
    requires forall i | 0 <= i < n :: !Succeeds(script(i))
    ensures Begins(Log(script, n)) <= n && Commits(Log(script, n)) == []
  {
    hide Events;
    if n > 0 {
      LogCounts(script, n - 1);
      EventCounts(script, n - 1);
      CountsConcat(Log(script, n - 1), Events(script, n - 1));
    }
  }

  lemma {:induction false} LogRollsBack<V, E>(script: nat -> Attempt<V, E>, n: nat, i: nat)
    requires Began(i) in Log(script, n)
    ensures i < n && (Committed(i) in Log(script, n) <==> Succeeds(script(i)))
    ensures Committed(i) !in Log(script, n) ==> RolledBack(i) in Log(script, n)
  {
    hide Events, Succeeds;
    OwnEvents(script, n - 1, i);
    if Began(i) in Log(script, n - 1) {
      LogRollsBack(script, n - 1, i);
    } else {
      OnlyOwnEvents(script, n - 1, i);
    }
  }

  /** An attempt's events are about itself. */
  lemma OwnEvents<V, E>(script: nat -> Attempt<V, E>, n: nat, i: nat)
    ensures i != n ==> Began(i) !in Events(script, n) && Committed(i) !in Events(script, n)
    ensures Committed(n) in Events(script, n) <==> Succeeds(script(n))
    ensures Began(n) in Events(script, n) && !Succeeds(script(n)) ==> RolledBack(n) in Events(script, n)
  {
  }

  lemma {:induction false} OnlyOwnEvents<V, E>(script: nat -> Attempt<V, E>, n: nat, i: nat)
    requires i >= n
    ensures Committed(i) !in Log(script, n)
  {
    if n > 0 { OnlyOwnEvents(script, n - 1, i); }
  }

  /** For every script of outcomes: at most `retries + 1` transactions begin; each that does not
      commit is rolled back; success returns the value of the one committed attempt; failure
      commits nothing. */
  lemma RunsAreAtomic<V, E>(script: nat -> Attempt<V, E>, conflict: E -> bool, retries: nat, k: nat)
    requires EndsAt(script, conflict, Attempts(retries), k)
    ensures var log := Log(script, k + 1);
            && Begins(log) <= retries + 1 && Begins(log) <= 0xFFFF_FFFF
            && (forall i: nat | Began(i) in log && Committed(i) !in log :: RolledBack(i) in log)
            && (match ResultOf(script(k))
                case Ok(v) => Commits(log) == [k] && script(k).body == Ok(v)
                case Err(_) => Commits(log) == [])
  {
    hide Events;
    LogCounts(script, k);
    EventCounts(script, k);
    CountsConcat(Log(script, k), Events(script, k));
    forall i: nat | Began(i) in Log(script, k + 1) && Committed(i) !in Log(script, k + 1)
      ensures RolledBack(i) in Log(script, k + 1)
    {
      LogRollsBack(script, k + 1, i);
    }
  }

  /** Exactly one attempt ends a run, so the outcome is determined by the script. */
  lemma EndIsUnique<V, E>(script: nat -> Attempt<V, E>, conflict: E -> bool, attempts: nat, j: nat, k: nat)
    requires EndsAt(script, conflict, attempts, j) && EndsAt(script, conflict, attempts, k)
    ensures j == k
  {
    assert !(j < k) && !(k < j);
  }

  /** An attempt that began and then met a conflict, in its body or at its commit. */
  predicate Conflicted<V, E>(a: Attempt<V, E>, conflict: E -> bool) {
    && a.begin.None?
    && ((a.body.Err? && conflict(a.body.error)) || (a.body.Ok? && a.commit.Some? && conflict(a.commit.value)))
  }

  /** A run ends with the first attempt that does not begin and then conflict, or with the last
      one allowed; and its result is what became of that attempt: the value if it began, ran and
      committed, otherwise the first thing that went wrong. */
  lemma RunEndsIff<V, E>(script: nat -> Attempt<V, E>, conflict: E -> bool, retries: nat, k: nat)
    ensures EndsAt(script, conflict, Attempts(retries), k) <==>
              && k <= retries && k < 0xFFFF_FFFF
              && (forall i | 0 <= i < k :: Conflicted(script(i), conflict))
              && (Conflicted(script(k), conflict) ==> k == retries || k + 1 == 0xFFFF_FFFF)
    ensures var a := script(k);
            && (a.begin.Some? ==> ResultOf(a) == Err(a.begin.value))
            && (a.begin.None? && a.body.Err? ==> ResultOf(a) == Err(a.body.error))
            && (a.begin.None? && a.body.Ok? && a.commit.Some? ==> ResultOf(a) == Err(a.commit.value))
            && (a.begin.None? && a.body.Ok? && a.commit.None? ==> ResultOf(a) == Ok(a.body.value))
  {
    forall i: nat ensures Conflicted(script(i), conflict) <==> Retried(script(i), conflict) {}
  }

  /** The run succeeds exactly when some allowed attempt succeeds after conflicts only. */
  lemma SucceedsIff<V, E>(script: nat -> Attempt<V, E>, conflict: E -> bool, retries: nat, k: nat)
    requires EndsAt(script, conflict, Attempts(retries), k)
    ensures ResultOf(script(k)).Ok? <==>
            exists n: nat | n <= retries && n < 0xFFFF_FFFF ::
              Succeeds(script(n)) && forall i | 0 <= i < n :: Retried(script(i), conflict)
  {
    if n: nat :| n < Attempts(retries) && Succeeds(script(n)) && forall i | 0 <= i < n :: Retried(script(i), conflict) {
      EndIsUnique(script, conflict, Attempts(retries), n, k);
    }
  }
}
