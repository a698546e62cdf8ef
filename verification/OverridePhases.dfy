/** The two phases of an override file, for any classifier of statements. The classifier the
    migrator uses is `Classification.IsDestructive`. */
module OverridePhases {
  import opened Text

  datatype Phases = Phases(copy: seq<string>, swap: seq<string>)

  /** The statements whose class is `swap`, in authored order. */
  function OfClass(statements: seq<string>, isSwap: string -> bool, swap: bool): (r: seq<string>)
    ensures forall i | 0 <= i < |r| :: isSwap(r[i]) == swap
    ensures |r| <= |statements|
  {
    if statements == [] then []
    else
      var init, last := statements[..|statements| - 1], statements[|statements| - 1];
      OfClass(init, isSwap, swap) + (if isSwap(last) == swap then [last] else [])
  }

  function Split(statements: seq<string>, isSwap: string -> bool): Phases {
    Phases(OfClass(statements, isSwap, false), OfClass(statements, isSwap, true))
  }

  /** The loop that builds the two phases. */
  method SplitOverridePhases(statements: seq<string>, isSwap: string -> bool) returns (copy: seq<string>,
      swap: seq<string>)
    ensures Phases(copy, swap) == Split(statements, isSwap)
  {
    copy, swap := [], [];
    for i := 0 to |statements|
      invariant copy == OfClass(statements[..i], isSwap, false)
      invariant swap == OfClass(statements[..i], isSwap, true)
    {
      assert statements[..i + 1][..i] == statements[..i];
      if isSwap(statements[i]) {
        swap := swap + [statements[i]];
      } else {
        copy := copy + [statements[i]];
      }
    }
    assert statements[..|statements|] == statements;
  }

  /** Running all copy statements before all swap statements is running the authored list. */
  predicate PhaseOrdered(statements: seq<string>, isSwap: string -> bool) {
    Split(statements, isSwap).copy + Split(statements, isSwap).swap == statements
  }

  /** The statements a rejection names: the first additive one that follows a destructive one,
      and the first destructive one. */
  datatype Misplaced = Misplaced(additive: nat, destructive: nat)

  /** The plan-time guard. It accepts a file exactly when the phase split keeps the authored
      order; a rejection names the first statement the split would move and the first
      destructive one. */
  method ValidatePhaseOrdering(statements: seq<string>, isSwap: string -> bool) returns (r: Result<(), Misplaced>)
    ensures r.Ok? <==> PhaseOrdered(statements, isSwap)
    ensures r.Err? ==>
              && r.error.destructive < r.error.additive < |statements|
              && (forall i | 0 <= i < r.error.additive :: isSwap(statements[i]) <==> r.error.destructive <= i)
              && !isSwap(statements[r.error.additive])
  {
    var firstSwap: Option<nat> := None;
    for i := 0 to |statements|
      invariant firstSwap.None? ==> forall j | 0 <= j < i :: !isSwap(statements[j])
      invariant firstSwap.Some? ==>
                  && firstSwap.value < i
                  && forall j | 0 <= j < i :: isSwap(statements[j]) <==> firstSwap.value <= j
    {
      if isSwap(statements[i]) {
        if firstSwap.None? { firstSwap := Some(i); }
      } else if firstSwap.Some? {
        InterleavedIsReordered(statements, isSwap, firstSwap.value, i);
        return Err(Misplaced(i, firstSwap.value));
      }
    }
    var k := if firstSwap.Some? then firstSwap.value else |statements|;
    OrderedIsKept(statements, isSwap, k);
    return Ok(());
  }

  lemma {:induction false} OfClassAll(statements: seq<string>, isSwap: string -> bool, swap: bool)
    requires forall i | 0 <= i < |statements| :: isSwap(statements[i]) == swap
    ensures OfClass(statements, isSwap, swap) == statements
    ensures OfClass(statements, isSwap, !swap) == []
  {
    if statements != [] {
      OfClassAll(statements[..|statements| - 1], isSwap, swap);
    }
  }

  lemma {:induction false} OfClassConcat(a: seq<string>, b: seq<string>, isSwap: string -> bool, swap: bool)
    ensures OfClass(a + b, isSwap, swap) == OfClass(a, isSwap, swap) + OfClass(b, isSwap, swap)
  {
    if b == [] {
      assert a + b == a;
    } else {
      assert (a + b)[..|a + b| - 1] == a + b[..|b| - 1];
      OfClassConcat(a, b[..|b| - 1], isSwap, swap);
    }
  }

  /** A file whose destructive statements all come last keeps its order. */
  lemma OrderedIsKept(statements: seq<string>, isSwap: string -> bool, k: nat)
    requires k <= |statements|
    requires forall i | 0 <= i < |statements| :: isSwap(statements[i]) <==> k <= i
    ensures PhaseOrdered(statements, isSwap)
  {
    hide OfClass;
    var a, b := statements[..k], statements[k..];
    assert statements == a + b;
    assert a + [] == a && [] + b == b;
    OfClassAll(a, isSwap, false);
    OfClassAll(b, isSwap, true);
    OfClassConcat(a, b, isSwap, false);
    OfClassConcat(a, b, isSwap, true);
  }

  /** An additive statement after a destructive one is always moved by the split. */
  lemma InterleavedIsReordered(statements: seq<string>, isSwap: string -> bool, i: nat, j: nat)
    requires i < j < |statements| && isSwap(statements[i]) && !isSwap(statements[j])
    ensures !PhaseOrdered(statements, isSwap)
  {
    var Phases(copy, swap) := Split(statements, isSwap);
    assert i < |copy| ==> (copy + swap)[i] == copy[i];
    assert |copy| <= j < |copy + swap| ==> (copy + swap)[j] == swap[j - |copy|];
  }
}
