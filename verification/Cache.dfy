/** The transient cache over a whitespace-tokenised key-value server: hex-encoded envelopes with
    a client-side expiry. */
module CacheModel {
  import opened Text

  // ----- hex -----

  predicate IsByte(b: nat) {
    b < 0x100
  }

  predicate AllBytes(s: seq<nat>) {
    forall i | 0 <= i < |s| :: IsByte(s[i])
  }

  function HexDigit(n: nat): (c: char)
    requires n < 16
    ensures '0' <= c <= '9' || 'a' <= c <= 'f'
  {
    if n < 10 then ('0' as int + n) as char else ('a' as int + n - 10) as char
  }

  function EncodeHex(bytes: seq<nat>): (s: string)
    requires AllBytes(bytes)
    ensures |s| == 2 * |bytes|
    ensures forall i | 0 <= i < |s| :: '0' <= s[i] <= '9' || 'a' <= s[i] <= 'f'
  {
    if bytes == [] then []
    else
      assert IsByte(bytes[0]);
      assert forall i | 0 <= i < |bytes[1..]| :: bytes[1..][i] == bytes[i + 1];
      [HexDigit(bytes[0] / 16), HexDigit(bytes[0] % 16)] + EncodeHex(bytes[1..])
  }

  function Nibble(c: char): (r: Option<nat>)
    ensures r.Some? ==> r.value < 16
  {
    if '0' <= c <= '9' then Some(c as int - '0' as int)
    else if 'a' <= c <= 'f' then Some(c as int - 'a' as int + 10)
    else None
  }

  function DecodeHex(s: string): (r: Option<seq<nat>>)
    ensures r.Some? ==> AllBytes(r.value)
  {
    if |s| % 2 != 0 then None
    else if s == [] then Some([])
    else
      var hi, lo, rest := Nibble(s[0]), Nibble(s[1]), DecodeHex(s[2..]);
      if hi.None? || lo.None? || rest.None? then None else Some([hi.value * 16 + lo.value] + rest.value)
  }

  lemma NibbleInverts(n: nat)
    requires n < 16
    ensures Nibble(HexDigit(n)) == Some(n)
  {
  }

  lemma EncodeStep(bytes: seq<nat>)
    requires AllBytes(bytes) && bytes != []
    ensures AllBytes(bytes[1..]) && IsByte(bytes[0])
    ensures EncodeHex(bytes) == [HexDigit(bytes[0] / 16), HexDigit(bytes[0] % 16)] + EncodeHex(bytes[1..])
    ensures EncodeHex([]) == []
  {
    assert forall i | 0 <= i < |bytes[1..]| :: bytes[1..][i] == bytes[i + 1];
  }

  method EncodeBytes(bytes: seq<nat>) returns (out: string)
    requires AllBytes(bytes)
    ensures out == EncodeHex(bytes)
  {
    hide EncodeHex, HexDigit, AllBytes;
    out := [];
    assert bytes[0..] == bytes;
    for i := 0 to |bytes|
      invariant AllBytes(bytes[i..]) && out + EncodeHex(bytes[i..]) == EncodeHex(bytes)
    {
      var b, rest := bytes[i], bytes[i + 1..];
      assert bytes[i..][1..] == rest;
      EncodeStep(bytes[i..]);
      ghost var before := out;
      out := out + [HexDigit(b / 16)];
      out := out + [HexDigit(b % 16)];
      assert before + ([HexDigit(b / 16), HexDigit(b % 16)] + EncodeHex(rest)) == out + EncodeHex(rest);
    }
    assert EncodeHex(bytes[|bytes|..]) == [];
  }

  lemma DecodeStep(hi: char, lo: char, rest: string)
    ensures var h, l, r := Nibble(hi), Nibble(lo), DecodeHex(rest);
            DecodeHex([hi, lo] + rest) ==
            if h.None? || l.None? || r.None? then None else Some([h.value * 16 + l.value] + r.value)
  {
    assert ([hi, lo] + rest)[2..] == rest;
  }

  /** Decoding inverts encoding. */
  lemma {:induction false} HexInverts(bytes: seq<nat>)
    requires AllBytes(bytes)
    ensures DecodeHex(EncodeHex(bytes)) == Some(bytes)
  {
    if bytes != [] {
      hide Nibble, HexDigit, EncodeHex, DecodeHex, AllBytes;
      EncodeStep(bytes);
      var hi, lo, rest := bytes[0] / 16, bytes[0] % 16, bytes[1..];
      NibbleInverts(hi);
      NibbleInverts(lo);
      HexInverts(rest);
      DecodeStep(HexDigit(hi), HexDigit(lo), EncodeHex(rest));
      assert bytes == [bytes[0]] + rest;
    }
  }

  lemma DigitInverts(c: char)
    requires Nibble(c).Some?
    ensures HexDigit(Nibble(c).value) == c
  {
  }

  /** Only encodings decode: a text that decodes is the encoding of its bytes. */
  lemma {:induction false} OnlyHexDecodes(s: string)
    ensures DecodeHex(s).Some? ==> EncodeHex(DecodeHex(s).value) == s
  {
    if DecodeHex(s).Some? && s != [] {
      var rest := s[2..];
      assert s == [s[0], s[1]] + rest;
      hide Nibble, HexDigit, EncodeHex, DecodeHex, AllBytes;
      DecodeStep(s[0], s[1], rest);
      var b := DecodeHex(s).value;
      assert b[1..] == DecodeHex(rest).value;
      OnlyHexDecodes(rest);
      DigitInverts(s[0]);
      DigitInverts(s[1]);
      EncodeStep(b);
      assert b[0] / 16 == Nibble(s[0]).value && b[0] % 16 == Nibble(s[1]).value;
    }
  }

  // ----- the server -----

  /** One command: the tokens are what whitespace separates, and a `SET` keeps one word. */
  function Exec(server: map<string, string>, command: string): (map<string, string>, Option<string>) {
    var t := Words(command);
    if |t| >= 3 && t[0] == "SET" then (server[t[1] := t[2]], Some("OK"))
    else if |t| >= 2 && t[0] == "GET" then (server, if t[1] in server then Some(server[t[1]]) else None)
    else if |t| >= 2 && t[0] == "GETDEL" then
      (server - {t[1]}, if t[1] in server then Some(server[t[1]]) else None)
    else (server, None)
  }

  predicate KeyChar(c: char) {
    'a' <= c <= 'z' || 'A' <= c <= 'Z' || '0' <= c <= '9' || c == '_' || c == ':' || c == '.' || c == '-'
  }

  /** Exactly which characters a key may hold. */
  lemma KeyCharIff(c: char)
    ensures KeyChar(c) <==> c in LOWER || c in UPPER || c in DIGITS || c in "_:.-"
  {
    LowerIff(c);
    UpperIff(c);
    DigitIff(c);
  }

  predicate ValidKey(key: string) {
    key != [] && forall i | 0 <= i < |key| :: KeyChar(key[i])
  }

  lemma ValidKeyIsWord(key: string)
    requires ValidKey(key)
    ensures Word(key)
  {
    forall i | 0 <= i < |key| ensures !IsSpace(key[i]) { assert KeyChar(key[i]); }
  }

  lemma HexIsWord(bytes: seq<nat>)
    requires AllBytes(bytes) && bytes != []
    ensures Word(EncodeHex(bytes))
  {
    var s := EncodeHex(bytes);
    forall i | 0 <= i < |s| ensures !IsSpace(s[i]) {}
  }

  /** A valid key and a non-empty payload make a `SET` of exactly three tokens. */
  lemma SetHasThreeTokens(key: string, bytes: seq<nat>)
    requires ValidKey(key) && AllBytes(bytes) && bytes != []
    ensures Words("SET " + key + " " + EncodeHex(bytes)) == ["SET", key, EncodeHex(bytes)]
  {
    hide Word, Words, ValidKey;
    var hex := EncodeHex(bytes);
    ValidKeyIsWord(key);
    HexIsWord(bytes);
    CommandIsWord();
    TokensOf(["SET", key, hex]);
    assert ["SET", key, hex][1..] == [key, hex] && [key, hex][1..] == [hex];
    assert Spaced([key, hex]) == key + " " + hex;
    assert Spaced(["SET", key, hex]) == "SET" + " " + (key + " " + hex);
    assert "SET " + key + " " + hex == "SET" + " " + (key + " " + hex);
  }

  lemma CommandIsWord()
    ensures Word("SET") && Word("GET") && Word("GETDEL")
  {
  }

  lemma GetHasTwoTokens(command: string, key: string)
    requires ValidKey(key) && (command == "GET" || command == "GETDEL")
    ensures Words(command + " " + key) == [command, key]
  {
    hide Word, Words, ValidKey;
    ValidKeyIsWord(key);
    CommandIsWord();
    TokensOf([command, key]);
    assert [command, key][1..] == [key];
  }

  /** Why values are hex-encoded: sent as they are, only their first word would be kept. */
  lemma RawValueIsTruncated(server: map<string, string>, key: string, first: string, more: string)
    requires ValidKey(key) && Word(first)
    ensures Exec(server, "SET " + key + " " + first + " " + more).0 == server[key := first]
  {
    hide Word, Words, ValidKey;
    ValidKeyIsWord(key);
    CommandIsWord();
    SpaceIsSpace();
    var rest := " " + more;
    FirstWord(first, rest);
    AfterSpace(first + rest);
    FirstWord(key, " " + (first + rest));
    AfterSpace(key + (" " + (first + rest)));
    FirstWord("SET", " " + (key + (" " + (first + rest))));
    assert "SET " + key + " " + first + " " + more == "SET" + (" " + (key + (" " + (first + rest))));
  }

  // ----- envelopes and expiry -----

  const U64_MAX := 0xFFFF_FFFF_FFFF_FFFF

  datatype Envelope<T> = Envelope(storedAt: nat, ttl: nat, payload: T)

  /** Saturating, so that the largest ttl never comes due. */
  function Deadline<T>(e: Envelope<T>): nat {
    if e.storedAt + e.ttl > U64_MAX then U64_MAX else e.storedAt + e.ttl
  }

  predicate Expired<T>(e: Envelope<T>, now: nat) {
    Deadline(e) <= now
  }

  function Stamped<T>(value: T, ttl: Option<nat>, now: nat): Envelope<T> {
    Envelope(now, if ttl.Some? then ttl.value else U64_MAX, value)
  }

  /** The envelope's serialisation, in and out. */
  datatype Codec<!T> = Codec(ser: Envelope<T> -> seq<nat>, de: seq<nat> -> Option<Envelope<T>>)

  ghost predicate Lossless<T(!new)>(codec: Codec<T>) {
    forall e :: codec.ser(e) != [] && AllBytes(codec.ser(e)) && codec.de(codec.ser(e)) == Some(e)
  }

  /** The envelope a stored text holds; anything undecodable holds none. */
  function Held<T>(codec: Codec<T>, text: string): Option<Envelope<T>> {
    var bytes := DecodeHex(text);
    if bytes.None? then None else codec.de(bytes.value)
  }

  function Lookup<T>(a: map<string, Envelope<T>>, key: string): Option<Envelope<T>> {
    if key in a then Some(a[key]) else None
  }

  ghost predicate Represents<T>(codec: Codec<T>, server: map<string, string>, a: map<string, Envelope<T>>) {
    forall k :: Lookup(a, k) == if k in server then Held(codec, server[k]) else None
  }

  // ----- the client's operations, abstractly -----

  /** `healed`: whether the clean-up of an expired or corrupt entry reached the server. */
  datatype Op<T> =
    | Set(key: string, value: T, ttl: Option<nat>, at: nat)
    | Get(key: string, at: nat, healed: bool)
    | GetDel(key: string, at: nat)

  function Live<T>(e: Option<Envelope<T>>, now: nat): Option<T> {
    if e.Some? && !Expired(e.value, now) then Some(e.value.payload) else None
  }

  function After<T>(a: map<string, Envelope<T>>, op: Op<T>): map<string, Envelope<T>> {
    match op
    case Set(key, value, ttl, at) => a[key := Stamped(value, ttl, at)]
    case Get(key, at, healed) => if key in a && Expired(a[key], at) && healed then a - {key} else a
    case GetDel(key, _) => a - {key}
  }

  function Answer<T>(a: map<string, Envelope<T>>, op: Op<T>): Option<T> {
    match op
    case Set(_, _, _, _) => None
    case Get(key, at, _) => Live(Lookup(a, key), at)
    case GetDel(key, _) => if key in a then Some(a[key].payload) else None
  }

  datatype CacheError = InvalidKey(key: string) | CommandFailed

  class Cache<T(!new)> {
    const codec: Codec<T>
    var server: map<string, string>
    ghost var view: map<string, Envelope<T>>

    ghost predicate Valid()
      reads this
    {
      Lossless(codec) && Represents(codec, server, view)
    }

    constructor (codec: Codec<T>)
      requires Lossless(codec)
      ensures Valid() && view == map[] && this.codec == codec
    {
      this.codec := codec;
      server := map[];
      view := map[];
    }

    method Store(key: string, value: T, ttl: Option<nat>, now: nat, sent: bool) returns (r: Result<(), CacheError>)
      requires Valid()
      modifies this
      ensures Valid()
      ensures r == if !ValidKey(key) then Err(InvalidKey(key)) else if !sent then Err(CommandFailed) else Ok(())
      ensures r.Ok? ==> view == After(old(view), Set(key, value, ttl, now))
      ensures r.Err? ==> view == old(view) && server == old(server)
    {
      hide Exec, EncodeHex, ValidKey, DecodeHex, Words;
      if !ValidKey(key) { return Err(InvalidKey(key)); }
      var envelope := Stamped(value, ttl, now);
      var bytes := codec.ser(envelope);
      assert bytes != [] && AllBytes(bytes) && codec.de(bytes) == Some(envelope);
      var encoded := EncodeBytes(bytes);
      if !sent { return Err(CommandFailed); }
      SetStores(server, key, bytes);
      HexInverts(bytes);
      server := Exec(server, "SET " + key + " " + encoded).0;
      view := view[key := envelope];
      return Ok(());
    }

    /** Clean-up after an expired or corrupt entry; its failure is swallowed. */
    method Heal(key: string, sent: bool)
      requires Valid() && ValidKey(key)
      modifies this
      ensures Valid()
      ensures view == if sent then old(view) - {key} else old(view)
      ensures server == if sent then old(server) - {key} else old(server)
    {
      hide Exec, ValidKey, DecodeHex;
      if sent {
        GetReads(server, key);
        server := Exec(server, "GETDEL " + key).0;
        view := view - {key};
      }
    }

    method Load(key: string, now: nat, sent: bool, healed: bool) returns (r: Result<Option<T>, CacheError>)
      requires Valid()
      modifies this
      ensures Valid()
      ensures r == if !ValidKey(key) then Err(InvalidKey(key)) else if !sent then Err(CommandFailed)
                   else Ok(Answer(old(view), Get(key, now, healed)))
      ensures view == if r.Ok? then After(old(view), Get(key, now, healed)) else old(view)
    {
      hide Exec, ValidKey, DecodeHex;
      if !ValidKey(key) { return Err(InvalidKey(key)); }
      if !sent { return Err(CommandFailed); }
      GetReads(server, key);
      var encoded := Exec(server, "GET " + key).1;
      if encoded.None? { return Ok(None); }
      var bytes := DecodeHex(encoded.value);
      if bytes.None? { Heal(key, healed); return Ok(None); }
      match codec.de(bytes.value)
      case Some(envelope) =>
        if !Expired(envelope, now) { return Ok(Some(envelope.payload)); }
        Heal(key, healed);
        return Ok(None);
      case None =>
        Heal(key, healed);
        return Ok(None);
    }

    method Consume(key: string, now: nat, sent: bool) returns (r: Result<Option<T>, CacheError>)
      requires Valid()
      modifies this
      ensures Valid()
      ensures r == if !ValidKey(key) then Err(InvalidKey(key)) else if !sent then Err(CommandFailed)
                   else Ok(Answer(old(view), GetDel(key, now)))
      ensures view == if r.Ok? then After(old(view), GetDel(key, now)) else old(view)
    {
      hide Exec, ValidKey, DecodeHex;
      if !ValidKey(key) { return Err(InvalidKey(key)); }
      if !sent { return Err(CommandFailed); }
      GetReads(server, key);
      var encoded := Exec(server, "GETDEL " + key).1;
      server := Exec(server, "GETDEL " + key).0;
      view := view - {key};
      if encoded.None? { return Ok(None); }
      var bytes := DecodeHex(encoded.value);
      if bytes.None? { return Ok(None); }
      var envelope := codec.de(bytes.value);
      return Ok(if envelope.Some? then Some(envelope.value.payload) else None);
    }
  }

  lemma SetStores(server: map<string, string>, key: string, bytes: seq<nat>)
    requires ValidKey(key) && AllBytes(bytes) && bytes != []
    ensures Exec(server, "SET " + key + " " + EncodeHex(bytes)).0 == server[key := EncodeHex(bytes)]
  {
    hide Words, ValidKey;
    SetHasThreeTokens(key, bytes);
  }

  lemma GetReads(server: map<string, string>, key: string)
    requires ValidKey(key)
    ensures Exec(server, "GET " + key) == (server, if key in server then Some(server[key]) else None)
    ensures Exec(server, "GETDEL " + key) == (server - {key}, if key in server then Some(server[key]) else None)
  {
    hide Words, ValidKey;
    GetHasTwoTokens("GET", key);
    GetHasTwoTokens("GETDEL", key);
    assert "GET " + key == "GET" + " " + key && "GETDEL " + key == "GETDEL" + " " + key;
  }

  // ----- whole histories -----

  function Run<T>(ops: seq<Op<T>>): map<string, Envelope<T>> {
    if ops == [] then map[] else After(Run(ops[..|ops| - 1]), ops[|ops| - 1])
  }

  /** What a map from keys to values and deadlines holds, going by sets and getdels alone. */
  function Current<T>(ops: seq<Op<T>>, key: string): Option<Envelope<T>> {
    if ops == [] then None
    else
      var last := ops[|ops| - 1];
      if last.key != key then Current(ops[..|ops| - 1], key)
      else match last
           case Set(_, value, ttl, at) => Some(Stamped(value, ttl, at))
           case Get(_, _, _) => Current(ops[..|ops| - 1], key)
           case GetDel(_, _) => None
  }

  /** Some get met the entry past its deadline and its clean-up went through. */
  predicate Swept<T>(ops: seq<Op<T>>, key: string) {
    ops != [] &&
    var prior, last := ops[..|ops| - 1], ops[|ops| - 1];
    if last.key != key then Swept(prior, key)
    else match last
         case Set(_, _, _, _) => false
         case Get(_, at, healed) =>
            Swept(prior, key) || (healed && Current(prior, key).Some? && Expired(Current(prior, key).value, at))
         case GetDel(_, _) => false
  }

  /** The clock does not run backwards, and has reached `now`. */
  predicate Nondecreasing<T>(ops: seq<Op<T>>, now: nat) {
    ops == [] || (ops[|ops| - 1].at <= now && Nondecreasing(ops[..|ops| - 1], ops[|ops| - 1].at))
  }

  /** The cache holds exactly what was set, not consumed since, and not swept. */
  lemma {:induction false} HoldsIffSetAndNotSwept<T>(ops: seq<Op<T>>, key: string)
    ensures Lookup(Run(ops), key) == if Swept(ops, key) then None else Current(ops, key)
  {
    if ops != [] { HoldsIffSetAndNotSwept(ops[..|ops| - 1], key); }
  }

  lemma {:induction false} SweptIsExpired<T>(ops: seq<Op<T>>, key: string, now: nat)
    requires Nondecreasing(ops, now) && Swept(ops, key)
    ensures Current(ops, key).Some? && Expired(Current(ops, key).value, now)
  {
    var prior, last := ops[..|ops| - 1], ops[|ops| - 1];
    if Swept(prior, key) { SweptIsExpired(prior, key, last.at); }
  }

  /** Over every history with a clock that does not run backwards, a get answers as the map of
      deadlines does, whatever became of the clean-ups. */
  lemma {:induction false} GetIsTtlMap<T>(ops: seq<Op<T>>, key: string, now: nat, healed: bool)
    requires Nondecreasing(ops, now)
    ensures Answer(Run(ops), Get(key, now, healed)) == Live(Current(ops, key), now)
  {
    HoldsIffSetAndNotSwept(ops, key);
    if Swept(ops, key) { SweptIsExpired(ops, key, now); }
  }

  /** In seconds: a get answers with what is current for its key exactly while the clock stands
      before the second it was stored plus its ttl, and before the largest time there is. */
  lemma GetAnswersIff<T>(ops: seq<Op<T>>, key: string, now: nat, healed: bool)
    requires Nondecreasing(ops, now)
    ensures var e := Current(ops, key);
            var r := Answer(Run(ops), Get(key, now, healed));
            && (r.Some? <==> e.Some? && now < e.value.storedAt + e.value.ttl && now < 0xFFFF_FFFF_FFFF_FFFF)
            && (r.Some? ==> r.value == e.value.payload)
  {
    GetIsTtlMap(ops, key, now, healed);
  }

  /** Right after a set, and while nothing else happens: a value set at `at` for `ttl` seconds is
      answered from then on until `at + ttl`, and one set without a ttl until the end of time. */
  lemma SetThenGet<T>(prior: seq<Op<T>>, key: string, value: T, ttl: Option<nat>, at: nat, now: nat, healed: bool)
    requires Nondecreasing(prior + [Set(key, value, ttl, at)], now) && now < 0xFFFF_FFFF_FFFF_FFFF
    ensures Answer(Run(prior + [Set(key, value, ttl, at)]), Get(key, now, healed))
            == if ttl.None? || now < at + ttl.value then Some(value) else None
  {
    var ops := prior + [Set(key, value, ttl, at)];
    GetAnswersIff(ops, key, now, healed);
    assert ops[..|ops| - 1] == prior;
  }

  /** A getdel takes what was set, of any age, unless a clean-up took it first; that can only
      have happened past its deadline. */
  lemma {:induction false} GetDelTakesUnlessSwept<T>(ops: seq<Op<T>>, key: string, now: nat)
    requires Nondecreasing(ops, now)
    ensures var e := Current(ops, key);
            && Answer(Run(ops), GetDel(key, now)) == (if e.Some? && !Swept(ops, key) then Some(e.value.payload) else None)
            && (Live(e, now).Some? ==> Answer(Run(ops), GetDel(key, now)) == Live(e, now))
  {
    HoldsIffSetAndNotSwept(ops, key);
    if Swept(ops, key) { SweptIsExpired(ops, key, now); }
  }

  /** Stored without a ttl, an entry never expires; with a zero ttl it is expired on arrival. */
  lemma TtlExtremes<T>(value: T, at: nat, now: nat)
    requires at <= now < U64_MAX
    ensures !Expired(Stamped(value, None, at), now) && Expired(Stamped(value, Some(0), at), now)
  {
  }
}
