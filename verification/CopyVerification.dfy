/** Which copy statements have their row counts checked, and which copy phases commit without
    any check. */
module CopyVerification {
  import opened Text
  import opened OverridePhases
  import opened PhaseEngine
  import opened PhaseEngineProofs
  import opened Classification
  import SyncProofs

  // ----- which statements yield a pair -----

  predicate NameChar(c: char) {
    IsAlphanumeric(c) || c == '_'
  }

  predicate Name(s: string) {
    s != [] && forall i | 0 <= i < |s| :: NameChar(s[i])
  }

  predicate FirstAt(u: string, sub: string, i: nat) {
    At(u, sub, i) && forall k: nat | k < i :: !At(u, sub, k)
  }

  predicate LastAt(u: string, sub: string, i: nat) {
    At(u, sub, i) && forall k: nat | i < k <= |u| :: !At(u, sub, k)
  }

  /** A name stands right after the first occurrence of the keyword, which `u` shows in upper case. */
  predicate NamedAfterFirst(t: string, u: string, keyword: string) {
    exists i: nat :: FirstAt(u, keyword, i) && i + |keyword| < |t| && NameChar(t[i + |keyword|])
  }

  predicate NamedAfterLast(t: string, u: string, keyword: string) {
    exists i: nat :: LastAt(u, keyword, i) && i + |keyword| < |t| && NameChar(t[i + |keyword|])
  }

  lemma IdentStartIff(s: string)
    ensures IdentStart(s).Some? <==> s != [] && NameChar(s[0])
    ensures IdentStart(s).Some? ==> Name(IdentStart(s).value) && IdentStart(s).value <= s
    ensures IdentStart(s).Some? && IdentStart(s).value < s ==> !NameChar(s[|IdentStart(s).value|])
  {
    IdentLengthRuns(s);
  }

  lemma {:induction false} IdentLengthRuns(s: string)
    ensures forall i | 0 <= i < IdentLength(s) :: NameChar(s[i])
    ensures IdentLength(s) < |s| ==> !NameChar(s[IdentLength(s)])
  {
    if s != [] && NameChar(s[0]) { IdentLengthRuns(s[1..]); }
  }

  lemma FindIsFirst(u: string, sub: string, i: nat)
    ensures FirstAt(u, sub, i) <==> Find(u, sub) == Some(i)
    ensures LastAt(u, sub, i) <==> FindLast(u, sub) == Some(i)
  {
    hide FindFrom, FindLastUpTo;
    if At(u, sub, i) {
      Within(u, sub, i);
      assert Contains(u, sub);
    }
  }

  lemma AfterFirstIff(t: string, u: string, keyword: string)
    requires |t| == |u|
    ensures NamedAfterFirst(t, u, keyword) <==> IdentAfter(t, Find(u, keyword), |keyword|).Some?
    ensures NamedAfterLast(t, u, keyword) <==> IdentAfter(t, FindLast(u, keyword), |keyword|).Some?
  {
    hide Find, FindLast, IdentStart, FirstAt, LastAt;
    forall i: nat ensures FirstAt(u, keyword, i) <==> Find(u, keyword) == Some(i)
                  ensures LastAt(u, keyword, i) <==> FindLast(u, keyword) == Some(i)
    {
      FindIsFirst(u, keyword, i);
    }
    var f, l := Find(u, keyword), FindLast(u, keyword);
    if f.Some? { IdentStartIff(t[f.value + |keyword|..]); }
    if l.Some? { IdentStartIff(t[l.value + |keyword|..]); }
  }

  /** A statement's counts are checked exactly when it inserts into a name and the last ` FROM `
      in it is followed by a name, or it moves vertices, the first ` TO TYPE:` is followed by a
      name, and so is the first ` FROM `. */
  lemma PairIff(stmt: string)
    ensures var t := TrimStart(stmt);
            var u := ToUpper(t);
            VerificationPair(stmt).Some? <==>
            || ("INSERT INTO " <= u && |t| > 12 && NameChar(t[12]) && NamedAfterLast(t, u, " FROM "))
            || ("MOVE VERTEX " <= u && NamedAfterFirst(t, u, " TO TYPE:") && NamedAfterFirst(t, u, " FROM "))
  {
    hide Find, FindLast, IdentStart, NamedAfterFirst, NamedAfterLast, ToUpper, TrimStart;
    var t := TrimStart(stmt);
    var u := ToUpper(t);
    AfterFirstIff(t, u, " FROM ");
    AfterFirstIff(t, u, " TO TYPE:");
    if "INSERT INTO " <= u {
      assert u[0] == 'I' && "MOVE VERTEX "[0] == 'M';
      assert !("MOVE VERTEX " <= u);
      IdentStartIff(t[|"INSERT INTO "|..]);
      assert |"INSERT INTO "| == 12;
    }
  }

  /** The whole name that stands at index `i`. */
  predicate NameAt(t: string, i: nat, name: string) {
    && Name(name) && i + |name| <= |t| && t[i..i + |name|] == name
    && (i + |name| < |t| ==> !NameChar(t[i + |name|]))
  }

  lemma {:induction false} RunHasLength(s: string, n: nat)
    requires n <= |s| && (forall i | 0 <= i < n :: NameChar(s[i])) && (n < |s| ==> !NameChar(s[n]))
    ensures IdentLength(s) == n
  {
    if n > 0 { RunHasLength(s[1..], n - 1); }
  }

  lemma IdentStartIs(s: string, name: string)
    ensures IdentStart(s) == Some(name) <==> NameAt(s, 0, name)
  {
    hide IdentLength;
    IdentLengthRuns(s);
    if NameAt(s, 0, name) {
      forall i | 0 <= i < |name| ensures NameChar(s[i]) { assert name[i] == s[i]; }
      RunHasLength(s, |name|);
    }
  }

  lemma NameAtShift(t: string, i: nat, name: string)
    requires i <= |t|
    ensures NameAt(t[i..], 0, name) <==> NameAt(t, i, name)
  {
    if i + |name| <= |t| { assert t[i..][0..|name|] == t[i..i + |name|]; }
  }

  lemma IdentAfterIs(t: string, at: Option<nat>, skip: nat, name: string)
    requires at.Some? ==> at.value + skip <= |t|
    ensures IdentAfter(t, at, skip) == Some(name) <==> at.Some? && NameAt(t, at.value + skip, name)
  {
    hide IdentStart, NameAt;
    if at.Some? {
      IdentStartIs(t[at.value + skip..], name);
      NameAtShift(t, at.value + skip, name);
    }
  }

  ghost predicate NameAfterFirst(t: string, u: string, keyword: string, name: string) {
    exists i: nat :: FirstAt(u, keyword, i) && NameAt(t, i + |keyword|, name)
  }

  ghost predicate NameAfterLast(t: string, u: string, keyword: string, name: string) {
    exists i: nat :: LastAt(u, keyword, i) && NameAt(t, i + |keyword|, name)
  }

  lemma NameAfterIs(t: string, u: string, keyword: string, name: string)
    requires |t| == |u|
    ensures NameAfterFirst(t, u, keyword, name) <==> IdentAfter(t, Find(u, keyword), |keyword|) == Some(name)
    ensures NameAfterLast(t, u, keyword, name) <==> IdentAfter(t, FindLast(u, keyword), |keyword|) == Some(name)
  {
    hide Find, FindLast, NameAt, FirstAt, LastAt, IdentAfter;
    forall i: nat ensures FirstAt(u, keyword, i) <==> Find(u, keyword) == Some(i)
                  ensures LastAt(u, keyword, i) <==> FindLast(u, keyword) == Some(i)
    {
      FindIsFirst(u, keyword, i);
    }
    IdentAfterIs(t, Find(u, keyword), |keyword|, name);
    IdentAfterIs(t, FindLast(u, keyword), |keyword|, name);
  }

  /** Which pair a statement yields: an insert counts the type after its last ` FROM ` against
      the type it inserts into; a move counts the type after its first ` FROM ` against the type
      after its first ` TO TYPE:`. */
  lemma PairIs(stmt: string, source: string, target: string, isMove: bool)
    ensures var t := TrimStart(stmt);
            var u := ToUpper(t);
            VerificationPair(stmt) == Some(CopyPair(source, target, isMove)) <==>
            || (!isMove && "INSERT INTO " <= u && NameAt(t, 12, target) && NameAfterLast(t, u, " FROM ", source))
            || (isMove && "MOVE VERTEX " <= u && NameAfterFirst(t, u, " TO TYPE:", target)
                && NameAfterFirst(t, u, " FROM ", source))
  {
    hide Find, FindLast, IdentStart, IdentAfter, NameAfterFirst, NameAfterLast, NameAt, ToUpper, TrimStart;
    var t := TrimStart(stmt);
    var u := ToUpper(t);
    NameAfterIs(t, u, " FROM ", source);
    NameAfterIs(t, u, " TO TYPE:", target);
    if "INSERT INTO " <= u {
      assert u[0] == 'I' && "MOVE VERTEX "[0] == 'M';
      assert !("MOVE VERTEX " <= u);
      assert |"INSERT INTO "| == 12;
      IdentStartIs(t[|"INSERT INTO "|..], target);
      NameAtShift(t, 12, target);
    }
  }

  // ----- the documented move -----

  lemma {:induction false} UpperConcat(a: string, b: string)
    ensures ToUpper(a + b) == ToUpper(a) + ToUpper(b)
  {
    assert forall i | 0 <= i < |a + b| :: ToUpper(a + b)[i] == (ToUpper(a) + ToUpper(b))[i];
  }

  /** `MOVE VERTEX <source> TO TYPE:<target>`, and what follows. */
  function MoveHead(source: string): string {
    "MOVE VERTEX " + source
  }

  function Move(source: string, target: string, tail: string): string {
    MoveHead(source) + (" TO TYPE:" + target) + tail
  }

  lemma UpperName(s: string)
    requires Name(s)
    ensures forall i | 0 <= i < |s| :: ToUpper(s)[i] != ' ' && ToUpper(s)[i] != ':'
  {
    forall i | 0 <= i < |s| ensures ToUpper(s)[i] != ' ' && ToUpper(s)[i] != ':' { assert NameChar(s[i]); }
  }

  lemma Differs(s: string, sub: string, i: nat, j: nat)
    requires j < |sub| && (i + j < |s| ==> s[i + j] != sub[j])
    ensures !At(s, sub, i)
  {
    if i + |sub| <= |s| { assert s[i..i + |sub|][j] == s[i + j]; }
  }

  /** The upper-case text of a move of a source with `n` characters. */
  predicate MoveText(u: string, n: nat) {
    && |u| >= 12 + n + 9 && u[..12] == "MOVE VERTEX " && u[12 + n..12 + n + 9] == " TO TYPE:"
    && forall i | 12 <= i < 12 + n :: u[i] != ' ' && u[i] != ':'
  }

  lemma MoveTextChars(u: string, n: nat)
    requires MoveText(u, n)
    ensures forall i | 0 <= i < 12 + n :: u[i] == ' ' ==> i == 4 || i == 11
    ensures u[5] == 'V'
    ensures u[12 + n] == ' ' && u[12 + n + 1] == 'T' && u[12 + n + 2] == 'O' && u[12 + n + 3] == ' ' && u[12 + n + 4] == 'T'
    ensures forall i | 12 + n + 4 < i < 12 + n + 9 :: u[i] != ' '
  {
    var v := u[12 + n..12 + n + 9];
    forall i | 12 + n <= i < 12 + n + 9 ensures u[i] == " TO TYPE:"[i - 12 - n] { assert v[i - 12 - n] == u[i]; }
    assert forall i | 0 <= i < 12 :: u[i] == u[..12][i];
  }

  /** No ` TO TYPE:` begins before the one the statement was built with. */
  lemma NoEarlierTo(u: string, n: nat)
    requires MoveText(u, n)
    ensures forall i: nat | i < 12 + n :: !At(u, " TO TYPE:", i)
  {
    hide At;
    MoveTextChars(u, n);
    forall i: nat | i < 12 + n ensures !At(u, " TO TYPE:", i) {
      var j := if i == 4 then 1 else if i != 11 then 0
               else if n == 0 then 1 else if n == 1 then 2 else if n == 2 then 5 else 3;
      Differs(u, " TO TYPE:", i, j);
    }
  }

  /** No ` FROM ` begins before the tail, unless the source is itself called FROM. */
  lemma NoEarlierFrom(u: string, n: nat, m: nat)
    requires MoveText(u, n) && |u| >= 12 + n + 9 + m && u[12..12 + n] != "FROM"
    requires forall i | 12 + n + 9 <= i < 12 + n + 9 + m :: u[i] != ' '
    ensures forall i: nat | i < 12 + n + 9 + m :: !At(u, " FROM ", i)
  {
    hide At;
    MoveTextChars(u, n);
    forall i: nat | i < 12 + n + 9 + m ensures !At(u, " FROM ", i) {
      var j := if i == 4 || i == 12 + n || i == 12 + n + 3 then 1
               else if i != 11 then 0
               else if n < 4 then 1 + n
               else if n > 4 then 5
               else 1 + Mismatch(u[12..16], "FROM");
      Differs(u, " FROM ", i, j);
    }
  }

  function Mismatch(s: string, t: string): (r: nat)
    requires |s| == |t| && s != t
    ensures r < |s| && s[r] != t[r]
  {
    if s[0] != t[0] then 0
    else
      assert s == [s[0]] + s[1..] && t == [t[0]] + t[1..];
      1 + Mismatch(s[1..], t[1..])
  }

  lemma NoLower(s: string)
    requires forall i | 0 <= i < |s| :: !('a' <= s[i] <= 'z')
    ensures ToUpper(s) == s
  {
    hide ToUpper;
  }

  lemma UpperLiterals()
    ensures ToUpper("MOVE VERTEX ") == "MOVE VERTEX " && ToUpper(" TO TYPE:") == " TO TYPE:"
  {
    hide ToUpper;
    NoLower("MOVE VERTEX ");
    NoLower(" TO TYPE:");
  }

  lemma Slices(a: string, b: string, c: string, d: string, e: string)
    ensures var s := a + b + (c + d) + e;
            && s[..|a|] == a && s[|a|..|a| + |b|] == b && s[|a| + |b|..|a| + |b| + |c|] == c
            && s[|a| + |b| + |c|..|a| + |b| + |c| + |d|] == d
  {
  }

  lemma UpperMove(source: string, target: string, tail: string)
    ensures ToUpper(Move(source, target, tail))
            == "MOVE VERTEX " + ToUpper(source) + (" TO TYPE:" + ToUpper(target)) + ToUpper(tail)
  {
    hide ToUpper;
    UpperLiterals();
    UpperConcat("MOVE VERTEX ", source);
    UpperConcat(" TO TYPE:", target);
    UpperConcat(MoveHead(source), " TO TYPE:" + target);
    UpperConcat(MoveHead(source) + (" TO TYPE:" + target), tail);
  }

  lemma MoveIsMoveText(source: string, target: string, tail: string)
    requires Name(source) && Name(target)
    ensures var u := ToUpper(Move(source, target, tail));
            var n := |source|;
            && MoveText(u, n) && u[12..12 + n] == ToUpper(source) && |u| >= 12 + n + 9 + |target|
            && (forall i | 12 + n + 9 <= i < 12 + n + 9 + |target| :: u[i] != ' ')
  {
    hide ToUpper, Move;
    var u := ToUpper(Move(source, target, tail));
    var n := |source|;
    var us, ut := ToUpper(source), ToUpper(target);
    UpperMove(source, target, tail);
    Slices("MOVE VERTEX ", us, " TO TYPE:", ut, ToUpper(tail));
    assert |"MOVE VERTEX "| == 12 && |" TO TYPE:"| == 9;
    UpperName(source);
    UpperName(target);
    forall i | 12 <= i < 12 + n ensures u[i] != ' ' && u[i] != ':' { assert u[12..12 + n][i - 12] == us[i - 12]; }
    forall i | 12 + n + 9 <= i < 12 + n + 9 + |target| ensures u[i] != ' ' {
      assert u[12 + n + 9..12 + n + 9 + |target|][i - (12 + n + 9)] == ut[i - (12 + n + 9)];
    }
  }

  lemma MoveStarts(source: string, target: string, tail: string)
    ensures TrimStart(Move(source, target, tail)) == Move(source, target, tail)
  {
    assert Move(source, target, tail)[0] == 'M';
  }

  /** A keyword that does not begin in the first part is looked for in the second. */
  lemma NamedPast(a: string, b: string, ua: string, ub: string, keyword: string)
    requires |a| == |ua| && |b| == |ub|
    requires forall i: nat | i < |ua| :: !At(ua + ub, keyword, i)
    ensures NamedAfterFirst(a + b, ua + ub, keyword) <==> NamedAfterFirst(b, ub, keyword)
  {
    hide Find, NamedAfterFirst, IdentStart;
    FindPast(ua, ub, keyword);
    AfterFirstIff(a + b, ua + ub, keyword);
    AfterFirstIff(b, ub, keyword);
    if Find(ub, keyword).Some? {
      var k := Find(ub, keyword).value + |keyword|;
      assert (a + b)[|a| + k..] == b[k..];
    }
  }

  /** The form the documentation gives, `MOVE VERTEX <source> TO TYPE:<target>` and whatever
      follows, has its counts checked exactly when a ` FROM ` and a name happen to follow; the
      source it then counts is that name, not the moved type. */
  lemma DocumentedMoveIff(source: string, target: string, tail: string)
    requires Name(source) && Name(target) && ToUpper(source) != "FROM"
    ensures VerificationPair(Move(source, target, tail)).Some? <==> NamedAfterFirst(tail, ToUpper(tail), " FROM ")
  {
    hide ToUpper, TrimStart, At, NamedAfterFirst, NamedAfterLast, MoveText, VerificationPair, Move;
    var t := Move(source, target, tail);
    var u := ToUpper(t);
    MoveIsMoveText(source, target, tail);
    MoveStarts(source, target, tail);
    NoEarlierFrom(u, |source|, |target|);
    MoveHeadAndTail(source, target, tail);
    var head := MoveHead(source) + (" TO TYPE:" + target);
    NamedPast(head, tail, ToUpper(head), ToUpper(tail), " FROM ");
    TargetIsNamed(source, target, tail);
    PairIff(t);
    StartsWithMove(u, |source|);
  }

  lemma MoveHeadAndTail(source: string, target: string, tail: string)
    ensures var head := MoveHead(source) + (" TO TYPE:" + target);
            && Move(source, target, tail) == head + tail && |head| == 12 + |source| + 9 + |target|
            && ToUpper(Move(source, target, tail)) == ToUpper(head) + ToUpper(tail)
  {
    hide ToUpper;
    UpperConcat(MoveHead(source) + (" TO TYPE:" + target), tail);
  }

  lemma StartsWithMove(u: string, n: nat)
    requires MoveText(u, n)
    ensures "MOVE VERTEX " <= u && !("INSERT INTO " <= u)
  {
    assert u[..12][0] == 'M';
  }

  lemma TargetIsNamed(source: string, target: string, tail: string)
    requires Name(source) && Name(target)
    ensures var t := Move(source, target, tail);
            NamedAfterFirst(t, ToUpper(t), " TO TYPE:")
  {
    hide ToUpper;
    var t := Move(source, target, tail);
    var u := ToUpper(t);
    MoveIsMoveText(source, target, tail);
    NoEarlierTo(u, |source|);
    var i := 12 + |source|;
    assert At(u, " TO TYPE:", i);
    assert FirstAt(u, " TO TYPE:", i);
    assert t[i + 9] == target[0] && NameChar(target[0]);
  }

  // ----- copy phases without a check -----

  lemma {:induction false} NoPairsIff(copy: seq<string>)
    ensures VerificationPairs(copy) == [] <==> forall s | s in copy :: VerificationPair(s).None?
  {
    hide VerificationPair;
    if copy != [] {
      NoPairsIff(copy[..|copy| - 1]);
      assert copy == copy[..|copy| - 1] + [copy[|copy| - 1]];
    }
  }

  lemma {:induction false} AckedRunCopy(e: Engine, w: World, file: string, copy: seq<string>, i: nat)
    requires w.tx.Some? && i <= |copy| && w.script == []
    ensures var r := RunCopy(e, w, file, copy, i);
            r.ok && r.w.script == [] && r.w.tx.Some? && |r.w.tx.value.view| == |w.tx.value.view| + |copy| - i
    decreases |copy| - i
  {
    if i < |copy| { AckedRunCopy(e, Call(w, CopyRan(e, w, file, i, copy[i])).w, file, copy, i + 1); }
  }

  lemma {:induction false} AckedVerifyCounts(e: Engine, w: World, pairs: seq<CopyPair>, before: seq<Entry>, i: nat)
    requires w.tx.Some? && i <= |pairs| && w.script == []
    ensures VerifyCounts(e, w, pairs, before, i).ok <==> Verified(e, pairs, before, w.tx.value.view, i)
    ensures VerifyCounts(e, w, pairs, before, i).w == w
    decreases |pairs| - i
  {
    if i < |pairs| { AckedVerifyCounts(e, w, pairs, before, i + 1); }
  }

  /** An undisturbed copy phase commits exactly when the counts of its pairs pass. */
  lemma AckedCopyPhase(e: Engine, w: World, file: string, copy: seq<string>)
    requires w.script == []
    ensures exists view: seq<Entry> | |view| == |w.log| + |copy| ::
              CopyPhase(e, w, file, copy).ok <==> Verified(e, e.pairs(copy), w.log, view, 0)
  {
    hide Verified, RunCopy, VerifyCounts, Reads;
    var b := Call(w, Began(w)).w;
    SyncProofs.AckedReads(b, |e.pairs(copy)|);
    AckedRunCopy(e, b, file, copy, 0);
    var c := RunCopy(e, b, file, copy, 0).w;
    AckedVerifyCounts(e, c, e.pairs(copy), w.log, 0);
    var view := c.tx.value.view;
    assert |view| == |w.log| + |copy|;
    assert CopyPhase(e, w, file, copy).ok <==> Verified(e, e.pairs(copy), w.log, view, 0);
  }

  /** With the migrator's own pairs, an undisturbed copy phase commits whatever the row counts are
      exactly when none of its statements yields a pair. */
  lemma CommitsUncheckedIff(e: Engine, w: World, file: string, copy: seq<string>)
    requires w.script == [] && e.pairs(copy) == VerificationPairs(copy)
    ensures (forall count: (string, seq<Entry>) -> int :: CopyPhase(e.(count := count), w, file, copy).ok)
            <==> forall s | s in copy :: VerificationPair(s).None?
  {
    hide VerificationPair, VerificationPairs, CopyPhase;
    NoPairsIff(copy);
    if VerificationPairs(copy) == [] {
      forall count: (string, seq<Entry>) -> int ensures CopyPhase(e.(count := count), w, file, copy).ok {
        AckedCopyPhase(e.(count := count), w, file, copy);
      }
    } else {
      assert copy != [] by { assert exists s :: s in copy && VerificationPair(s).Some?; }
      var shrinking := (name: string, log: seq<Entry>) => if |log| <= |w.log| then 1 else 0;
      var f := e.(count := shrinking);
      AckedCopyPhase(f, w, file, copy);
      var view: seq<Entry> :| |view| == |w.log| + |copy| &&
        (CopyPhase(f, w, file, copy).ok <==> Verified(f, f.pairs(copy), w.log, view, 0));
      assert f.count(f.pairs(copy)[0].target, view) < f.count(f.pairs(copy)[0].source, w.log);
      assert !CopyPhase(f, w, file, copy).ok;
    }
  }

  /** So a rebuild that moves its records the documented way is never checked. */
  lemma DocumentedMovesCommitUnchecked(e: Engine, w: World, file: string, copy: seq<string>)
    requires w.script == [] && e.pairs(copy) == VerificationPairs(copy)
    requires forall s | s in copy :: exists source, target ::
               Name(source) && Name(target) && ToUpper(source) != "FROM" && s == Move(source, target, "")
    ensures CopyPhase(e, w, file, copy).ok
  {
    hide ToUpper, VerificationPair, VerificationPairs, CopyPhase, Move;
    forall s | s in copy ensures VerificationPair(s).None? {
      var source, target :| Name(source) && Name(target) && ToUpper(source) != "FROM" && s == Move(source, target, "");
      DocumentedMoveIff(source, target, "");
      NothingNamed();
    }
    CommitsUncheckedIff(e, w, file, copy);
    assert e.(count := e.count) == e;
  }

  lemma NothingNamed()
    ensures !NamedAfterFirst("", ToUpper(""), " FROM ")
  {
  }
}
