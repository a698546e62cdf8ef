/** The character-level vocabulary shared by the text models: whitespace as `str::trim` sees
    it, ASCII upper-casing, substring search, words and trimming. */
module Text {

  datatype Option<+T> = None | Some(value: T)

  datatype Result<+T, +E> = Ok(value: T) | Err(error: E)

  /** The characters with the Unicode White_Space property, which `trim` and
      `split_whitespace` remove. */
  predicate IsSpace(c: char) {
    var n := c as int;
    || 0x09 <= n <= 0x0D || n == 0x20 || n == 0x85 || n == 0xA0 || n == 0x1680
    || 0x2000 <= n <= 0x200A || n == 0x2028 || n == 0x2029 || n == 0x202F
    || n == 0x205F || n == 0x3000
  }

  /** The 25 code points with the Unicode property White_Space. */
  const SPACES: seq<int> := [
    0x9, 0xA, 0xB, 0xC, 0xD, 0x20, 0x85, 0xA0, 0x1680, 0x2000, 0x2001, 0x2002, 0x2003, 0x2004, 0x2005, 0x2006, 0x2007,
    0x2008, 0x2009, 0x200A, 0x2028, 0x2029, 0x202F, 0x205F, 0x3000]

  lemma IsSpaceIff(c: char)
    ensures IsSpace(c) <==> c as int in SPACES
  {
    var n := c as int;
    if 0x9 <= n <= 0xD { assert SPACES[n - 0x9] == n; }
    if 0x2000 <= n <= 0x200A { assert SPACES[n - 0x2000 + 9] == n; }
    assert SPACES[5] == 0x20 && SPACES[6] == 0x85 && SPACES[7] == 0xA0 && SPACES[8] == 0x1680;
    assert SPACES[20] == 0x2028 && SPACES[21] == 0x2029 && SPACES[22] == 0x202F && SPACES[23] == 0x205F;
    assert SPACES[24] == 0x3000;
  }

  predicate Blank(s: string) {
    forall i | 0 <= i < |s| :: IsSpace(s[i])
  }

  /** `s` neither begins nor ends with whitespace. */
  predicate Trimmed(s: string) {
    s != [] ==> !IsSpace(s[0]) && !IsSpace(s[|s| - 1])
  }

  function TrimStart(s: string): (t: string)
    ensures |t| <= |s| && t == s[|s| - |t|..] && Blank(s[..|s| - |t|])
    ensures t != [] ==> !IsSpace(t[0])
  {
    if s == [] || !IsSpace(s[0]) then s
    else
      var rest := s[1..];
      var t := TrimStart(rest);
      BlankCons(s[0], rest[..|rest| - |t|]);
      assert s[..|s| - |t|] == [s[0]] + rest[..|rest| - |t|];
      t
  }

  lemma BlankCons(c: char, s: string)
    requires IsSpace(c) && Blank(s)
    ensures Blank([c] + s)
  {
  }

  function TrimEnd(s: string): (t: string)
    ensures t <= s && Blank(s[|t|..])
    ensures t != [] ==> !IsSpace(t[|t| - 1])
  {
    if s == [] || !IsSpace(s[|s| - 1]) then s
    else
      var t := TrimEnd(s[..|s| - 1]);
      assert s[|t|..] == s[..|s| - 1][|t|..] + [s[|s| - 1]];
      t
  }

  lemma Regroup<T>(a: seq<T>, b: seq<T>, c: seq<T>)
    ensures a + (b + c) == a + b + c
  {
    hide *;
  }

  lemma TailConcat<T>(a: seq<T>, b: seq<T>)
    requires a != []
    ensures a + b != [] && (a + b)[0] == a[0] && (a + b)[1..] == a[1..] + b
  {
    hide *;
  }

  lemma TakeNext<T>(s: seq<T>, n: nat)
    requires 0 < n <= |s|
    ensures s[..n] == s[..n - 1] + [s[n - 1]]
    ensures forall x :: x in s[..n] <==> x in s[..n - 1] || x == s[n - 1]
  {
    hide *;
    assert s[..n] == s[..n - 1] + [s[n - 1]];
  }

  lemma SplitAt(s: string, n: nat)
    requires n <= |s|
    ensures s == s[..n] + s[n..]
  {
    hide *;
  }

  function Trim(s: string): string {
    TrimEnd(TrimStart(s))
  }

  lemma {:induction false} TrimStartAround(before: string, rest: string)
    requires Blank(before) && (rest != [] ==> !IsSpace(rest[0]))
    ensures TrimStart(before + rest) == rest
  {
    hide *;
    if before == [] {
      assert before + rest == rest;
      TrimStartStops(rest);
    } else {
      BlankTail(before);
      TailConcat(before, rest);
      TrimStartDrops(before + rest);
      TrimStartAround(before[1..], rest);
    }
  }

  lemma BlankTail(s: string)
    requires Blank(s) && s != []
    ensures IsSpace(s[0]) && Blank(s[1..])
  {
    hide IsSpace;
  }

  lemma TrimStartStops(s: string)
    requires s != [] ==> !IsSpace(s[0])
    ensures TrimStart(s) == s
  {
  }

  lemma TrimStartDrops(s: string)
    requires s != [] && IsSpace(s[0])
    ensures TrimStart(s) == TrimStart(s[1..])
  {
    hide IsSpace;
  }

  lemma {:induction false} TrimEndAround(rest: string, after: string)
    requires Blank(after) && (rest != [] ==> !IsSpace(rest[|rest| - 1]))
    ensures TrimEnd(rest + after) == rest
  {
    if after == [] {
      assert rest + after == rest;
    } else {
      TrimEndAround(rest, after[..|after| - 1]);
      assert (rest + after)[..|rest + after| - 1] == rest + after[..|after| - 1];
    }
  }

  /** Trimming removes exactly the whitespace around a trimmed, non-empty core. */
  lemma TrimAround(before: string, core: string, after: string)
    requires Blank(before) && Blank(after) && core != [] && Trimmed(core)
    ensures Trim(before + core + after) == core
  {
    assert before + core + after == before + (core + after);
    TrimStartAround(before, core + after);
    TrimEndAround(core, after);
  }

  lemma TrimIsTrimmed(s: string)
    ensures Trimmed(Trim(s)) && |Trim(s)| <= |s|
    ensures s != [] && IsSpace(s[0]) ==> |Trim(s)| < |s|
  {
    var t := TrimStart(s);
    var u := TrimEnd(t);
    assert u != [] ==> u[0] == t[0];
  }

  lemma TrimmedParts(x: string) returns (before: string, after: string)
    ensures Blank(before) && Blank(after) && x == before + Trim(x) + after
  {
    hide Blank, IsSpace, TrimStart, TrimEnd;
    var t := TrimStart(x);
    var u := TrimEnd(t);
    before, after := x[..|x| - |t|], t[|u|..];
    SplitAt(x, |x| - |t|);
    SplitAt(t, |u|);
    Regroup(before, u, after);
  }

  lemma TrimTrimmed(s: string)
    requires Trimmed(s)
    ensures Trim(s) == s
  {
    if s != [] {
      TrimAround([], s, []);
      assert [] + s + [] == s;
    }
  }

  /** Text trims to nothing exactly when it is whitespace only. */
  lemma TrimBlank(s: string)
    ensures Trim(s) == [] <==> Blank(s)
  {
    if Blank(s) {
      TrimStartAround(s, []);
      assert s + [] == s;
    } else {
      var t := TrimStart(s);
      assert s == s[..|s| - |t|] + t;
    }
  }

  function Upper(c: char): char {
    if 'a' <= c <= 'z' then (c as int - 32) as char else c
  }

  /** `str::to_ascii_uppercase`. */
  function ToUpper(s: string): (r: string)
    ensures |r| == |s|
    ensures forall i | 0 <= i < |s| :: r[i] == Upper(s[i])
  {
    if s == [] then [] else [Upper(s[0])] + ToUpper(s[1..])
  }

  const LOWER := "abcdefghijklmnopqrstuvwxyz"
  const UPPER := "ABCDEFGHIJKLMNOPQRSTUVWXYZ"
  const DIGITS := "0123456789"

  lemma LowerIff(c: char)
    ensures c in LOWER <==> 'a' <= c <= 'z'
  {
    if 'a' <= c <= 'z' { assert LOWER[c as int - 97] == c; }
  }

  lemma UpperIff(c: char)
    ensures c in UPPER <==> 'A' <= c <= 'Z'
  {
    if 'A' <= c <= 'Z' { assert UPPER[c as int - 65] == c; }
  }

  lemma DigitIff(c: char)
    ensures c in DIGITS <==> '0' <= c <= '9'
  {
    if '0' <= c <= '9' { assert DIGITS[c as int - 48] == c; }
  }

  /** `sub` occurs in `s` at index `i`. */
  predicate At(s: string, sub: string, i: nat) {
    i + |sub| <= |s| && s[i..i + |sub|] == sub
  }

  predicate Contains(s: string, sub: string) {
    exists i: nat | i <= |s| :: At(s, sub, i)
  }

  /** The first index at which `sub` occurs, as `str::find` reports it. */
  function Find(s: string, sub: string): (r: Option<nat>)
    ensures r.Some? ==> At(s, sub, r.value) && forall i | 0 <= i < r.value :: !At(s, sub, i)
    ensures r.None? <==> !Contains(s, sub)
  {
    FindFrom(s, sub, 0)
  }

  function FindFrom(s: string, sub: string, from: nat): (r: Option<nat>)
    requires from <= |s|
    ensures r.Some? ==> from <= r.value && At(s, sub, r.value)
    ensures r.Some? ==> forall i | from <= i < r.value :: !At(s, sub, i)
    ensures r.None? ==> forall i: nat | from <= i <= |s| :: !At(s, sub, i)
    decreases |s| - from
  {
    if At(s, sub, from) then Some(from)
    else if from == |s| then None
    else FindFrom(s, sub, from + 1)
  }

  /** The last index at which `sub` occurs, as `rposition` over windows reports it. */
  function FindLast(s: string, sub: string): (r: Option<nat>)
    ensures r.Some? ==> At(s, sub, r.value) && forall i: nat | r.value < i <= |s| :: !At(s, sub, i)
    ensures r.None? <==> !Contains(s, sub)
  {
    FindLastUpTo(s, sub, |s|)
  }

  function FindLastUpTo(s: string, sub: string, upTo: nat): (r: Option<nat>)
    requires upTo <= |s|
    ensures r.Some? ==> r.value <= upTo && At(s, sub, r.value)
    ensures r.Some? ==> forall i: nat | r.value < i <= upTo :: !At(s, sub, i)
    ensures r.None? ==> forall i: nat | i <= upTo :: !At(s, sub, i)
  {
    if At(s, sub, upTo) then Some(upTo)
    else if upTo == 0 then None
    else FindLastUpTo(s, sub, upTo - 1)
  }

  /** The words `split_whitespace` yields. */
  function Words(s: string): seq<string>
    decreases |s|
  {
    var t := TrimStart(s);
    if t == [] then []
    else
      var n := WordLength(t);
      [t[..n]] + Words(t[n..])
  }

  function WordLength(s: string): (n: nat)
    ensures n <= |s|
    ensures forall i | 0 <= i < n :: !IsSpace(s[i])
    ensures n < |s| ==> IsSpace(s[n])
  {
    if s == [] || IsSpace(s[0]) then 0 else 1 + WordLength(s[1..])
  }

  /** A number's decimal text. */
  function Digits(n: nat): (s: string)
    ensures s != [] && forall i | 0 <= i < |s| :: '0' <= s[i] <= '9'
  {
    (if n < 10 then [] else Digits(n / 10)) + [('0' as int + n % 10) as char]
  }

  function DecimalText(n: int): string {
    if n < 0 then "-" + Digits(-n) else Digits(n)
  }

  lemma {:induction false} DigitsAreInjective(a: nat, b: nat)
    ensures Digits(a) == Digits(b) ==> a == b
  {
    var x, y := Digits(a), Digits(b);
    if x == y {
      assert x[|x| - 1] == y[|y| - 1];
      assert a % 10 == b % 10;
      if a >= 10 && b >= 10 {
        assert x[..|x| - 1] == Digits(a / 10) && y[..|y| - 1] == Digits(b / 10);
        DigitsAreInjective(a / 10, b / 10);
      }
    }
  }

  lemma {:induction false} WordLengthAt(word: string, rest: string)
    requires forall i | 0 <= i < |word| :: !IsSpace(word[i])
    requires rest == [] || IsSpace(rest[0])
    ensures WordLength(word + rest) == |word|
  {
    if word == [] {
      assert word + rest == rest;
    } else {
      assert (word + rest)[1..] == word[1..] + rest;
      WordLengthAt(word[1..], rest);
    }
  }

  lemma ContainsMiddle(a: string, b: string, c: string)
    ensures Contains(a + b + c, b)
  {
    assert (a + b + c)[|a|..|a| + |b|] == b;
    assert At(a + b + c, b, |a|);
  }

  predicate Word(s: string) {
    s != [] && forall i | 0 <= i < |s| :: !IsSpace(s[i])
  }

  lemma FirstWord(word: string, rest: string)
    requires Word(word) && (rest == [] || IsSpace(rest[0]))
    ensures Words(word + rest) == [word] + Words(rest)
  {
    hide IsSpace, WordLength;
    WordLengthAt(word, rest);
    var s := word + rest;
    assert s[0] == word[0];
    assert TrimStart(s) == s;
    assert s[..|word|] == word && s[|word|..] == rest;
  }

  lemma AfterSpace(s: string)
    ensures Words(" " + s) == Words(s)
  {
    hide WordLength;
    assert (" " + s)[1..] == s;
  }

  lemma {:induction false} TokensOf(words: seq<string>)
    requires words != [] && forall w | w in words :: Word(w)
    ensures Words(Spaced(words)) == words
  {
    hide Words, Word, IsSpace;
    var w, rest := words[0], words[1..];
    assert w in words;
    SpaceIsSpace();
    if rest == [] {
      FirstWord(w, []);
      assert w + [] == w;
      NoWords();
    } else {
      FirstWord(w, " " + Spaced(rest));
      AfterSpace(Spaced(rest));
      TokensOf(rest);
      assert w + (" " + Spaced(rest)) == Spaced(words);
    }
  }

  lemma SpaceIsSpace()
    ensures IsSpace(' ')
  {
  }

  lemma NoWords()
    ensures Words([]) == []
  {
  }

  function Spaced(words: seq<string>): string {
    if words == [] then [] else if |words| == 1 then words[0] else words[0] + " " + Spaced(words[1..])
  }

  lemma FindAt(s: string, sub: string, at: nat)
    requires At(s, sub, at)
    requires forall i: nat | i < at :: !At(s, sub, i)
    ensures Find(s, sub) == Some(at)
  {
    hide FindFrom, At;
    assert at <= |s| by { Within(s, sub, at); }
    assert Contains(s, sub);
  }

  lemma Within(s: string, sub: string, at: nat)
    requires At(s, sub, at)
    ensures at <= |s|
  {
  }

  /** Searching past a prefix in which no occurrence begins. */
  lemma FindPast(a: string, b: string, sub: string)
    requires forall i: nat | i < |a| :: !At(a + b, sub, i)
    ensures Find(a + b, sub) == if Find(b, sub).None? then None else Some(|a| + Find(b, sub).value)
  {
    hide FindFrom;
    forall i: nat ensures At(a + b, sub, |a| + i) <==> At(b, sub, i) {
      if i + |sub| <= |b| { assert (a + b)[|a| + i..|a| + i + |sub|] == b[i..i + |sub|]; }
    }
    if Find(b, sub).Some? {
      var k := Find(b, sub).value;
      forall i: nat | i < |a| + k ensures !At(a + b, sub, i) {
        if i >= |a| { assert !At(b, sub, i - |a|); }
      }
      FindAt(a + b, sub, |a| + k);
    } else {
      forall i: nat | i <= |a + b| ensures !At(a + b, sub, i) {
        if i >= |a| { assert !At(b, sub, i - |a|); }
      }
    }
  }
}
