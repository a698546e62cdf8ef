/** Exact decimals on the wire: a mantissa that fits 64 bits travels as an integer, a wider one
    as big-endian two's-complement bytes. */
module DecimalModel {
  import opened Text

  predicate Bytes(s: seq<nat>) {
    forall i | 0 <= i < |s| :: s[i] < 0x100
  }

  function Pow256(n: nat): (r: nat)
    ensures r >= 1
  {
    if n == 0 then 1 else 0x100 * Pow256(n - 1)
  }

  /** The unsigned big-endian value. */
  function Unsigned(s: seq<nat>): nat {
    if s == [] then 0 else 0x100 * Unsigned(s[..|s| - 1]) + s[|s| - 1]
  }

  /** The signed big-endian value: two's complement at the text's own width. */
  function Signed(s: seq<nat>): int {
    if s != [] && s[0] >= 0x80 then Unsigned(s) - Pow256(|s|) else Unsigned(s)
  }

  /** The 16-byte buffer the decoder fills: sign bytes, then the bytes it was given. */
  function Padded(s: seq<nat>): (r: seq<nat>)
    requires |s| <= 16
    ensures |r| == 16
  {
    Filled(16 - |s|, if s != [] && s[0] >= 0x80 then 0xFF else 0) + s
  }

  function Filled(n: nat, b: nat): (r: seq<nat>)
    ensures |r| == n && forall i | 0 <= i < n :: r[i] == b
  {
    if n == 0 then [] else Filled(n - 1, b) + [b]
  }

  method FillBuffer(s: seq<nat>) returns (buf: array<nat>)
    requires |s| <= 16
    ensures buf[..] == Padded(s)
  {
    var fill := if s != [] && s[0] >= 0x80 then 0xFF else 0;
    buf := new nat[16](i => fill);
    var from := 16 - |s|;
    for i := 0 to |s|
      invariant forall j | 0 <= j < from :: buf[j] == fill
      invariant forall j | 0 <= j < i :: buf[from + j] == s[j]
    {
      buf[from + i] := s[i];
    }
    assert buf[..] == Filled(from, fill) + s;
  }

  lemma {:induction false} UnsignedConcat(a: seq<nat>, b: seq<nat>)
    ensures Unsigned(a + b) == Unsigned(a) * Pow256(|b|) + Unsigned(b)
  {
    if b == [] {
      assert a + b == a;
    } else {
      var n := |b| - 1;
      UnsignedConcat(a, b[..n]);
      assert (a + b)[..|a + b| - 1] == a + b[..n];
      Distribute(Unsigned(a), Pow256(n));
    }
  }

  lemma Distribute(x: nat, p: nat)
    ensures 0x100 * (x * p) == x * (0x100 * p)
  {
  }

  lemma {:induction false} FilledValue(n: nat, b: nat)
    requires b == 0 || b == 0xFF
    ensures Unsigned(Filled(n, b)) == if b == 0 then 0 else Pow256(n) - 1
  {
    if n > 0 {
      FilledValue(n - 1, b);
      assert Filled(n, b)[..n - 1] == Filled(n - 1, b);
    }
  }

  lemma {:induction false} Pow256Adds(a: nat, b: nat)
    ensures Pow256(a + b) == Pow256(a) * Pow256(b)
  {
    if a == 0 {
      assert 1 * Pow256(b) == Pow256(b);
    } else {
      Pow256Adds(a - 1, b);
      Associate(Pow256(a - 1), Pow256(b));
    }
  }

  lemma Associate(x: nat, y: nat)
    ensures 0x100 * (x * y) == (0x100 * x) * y
  {
  }

  /** Sign extension keeps the value: the padded 128-bit number is the signed value of the bytes,
      for every length from 1 to 16. */
  lemma PaddingKeepsValue(s: seq<nat>)
    requires 1 <= |s| <= 16
    ensures Signed(Padded(s)) == Signed(s)
  {
    hide Pow256, Unsigned;
    var k := 16 - |s|;
    var fill := if s[0] >= 0x80 then 0xFF else 0;
    UnsignedConcat(Filled(k, fill), s);
    FilledValue(k, fill);
    Pow256Adds(k, |s|);
    assert Padded(s)[0] == if k == 0 then s[0] else fill;
    if s[0] >= 0x80 {
      Expand(Pow256(k), Pow256(|s|));
    } else {
      assert 0 * Pow256(|s|) == 0;
    }
  }

  lemma Expand(x: int, y: int)
    ensures (x - 1) * y == x * y - y
  {
  }

  // ----- encoding -----

  /** `to_be_bytes` at `n` bytes of the value modulo their range. */
  function ToBytes(v: nat, n: nat): (r: seq<nat>)
    ensures |r| == n && Bytes(r)
  {
    if n == 0 then [] else ToBytes(v / 0x100, n - 1) + [v % 0x100]
  }

  lemma {:induction false} ToBytesValue(v: nat, n: nat)
    requires v < Pow256(n)
    ensures Unsigned(ToBytes(v, n)) == v
  {
    if n > 0 {
      ToBytesValue(v / 0x100, n - 1);
      assert ToBytes(v, n)[..n - 1] == ToBytes(v / 0x100, n - 1);
    }
  }

  const TWO_64 := 0x1_0000_0000_0000_0000
  const TWO_96 := 0x1_0000_0000_0000_0000_0000_0000
  const TWO_128 := 0x1_0000_0000_0000_0000_0000_0000_0000_0000

  datatype WireDecimal = WireDecimal(unscaled: int, scale: int, unscaledBytes: seq<nat>)

  /** An exact decimal: a mantissa of at most 96 bits and a sign, and a scale of at most 28. */
  datatype Decimal = Decimal(mantissa: int, scale: nat)

  predicate IsDecimal(d: Decimal) {
    -TWO_96 < d.mantissa < TWO_96 && d.scale <= 28
  }

  predicate FitsI64(n: int) {
    -0x8000_0000_0000_0000 <= n < 0x8000_0000_0000_0000
  }

  function TwosComplement(n: int): nat
    requires -TWO_128 <= n
  {
    if n < 0 then n + TWO_128 else n
  }

  function EncodeDecimal(d: Decimal): WireDecimal
    requires IsDecimal(d)
  {
    if FitsI64(d.mantissa) then WireDecimal(d.mantissa, d.scale, [])
    else WireDecimal(0, d.scale, ToBytes(TwosComplement(d.mantissa), 16))
  }

  datatype DecimalError = TooWide(bytes: nat) | ScaleOutOfRange(scale: int) | NotRepresentable

  /** The 128-bit value the decoder assembles. */
  function UnscaledOf(w: WireDecimal): int
    requires |w.unscaledBytes| <= 16
  {
    if w.unscaledBytes == [] then w.unscaled else Signed(Padded(w.unscaledBytes))
  }

  function DecodeDecimal(w: WireDecimal): Result<Decimal, DecimalError> {
    if |w.unscaledBytes| > 16 then Err(TooWide(|w.unscaledBytes|))
    else
      var unscaled := UnscaledOf(w);
      if w.scale < 0 then Err(ScaleOutOfRange(w.scale))
      else if w.scale > 28 || !(-TWO_96 < unscaled < TWO_96) then Err(NotRepresentable)
      else Ok(Decimal(unscaled, w.scale))
  }

  lemma Pow256Of16()
    ensures Pow256(16) == TWO_128 && Pow256(15) * 0x80 == TWO_128 / 2
  {
    assert Pow256(4) == 0x1_0000_0000 by {
      assert Pow256(2) == 0x1_0000;
    }
    Pow256Adds(4, 4);
    Pow256Adds(8, 8);
    assert Pow256(16) == 0x100 * Pow256(15);
  }

  lemma {:induction false} LeadingByte(s: seq<nat>)
    requires |s| >= 1 && Bytes(s)
    ensures s[0] * Pow256(|s| - 1) <= Unsigned(s) < (s[0] + 1) * Pow256(|s| - 1)
  {
    if |s| == 1 {
      assert s[..0] == [];
      assert Unsigned(s) == s[0] && Pow256(0) == 1;
    } else {
      var n := |s| - 1;
      LeadingByte(s[..n]);
      var p, u := Pow256(n - 1), Unsigned(s[..n]);
      Distribute(s[0], p);
      Distribute(s[0] + 1, p);
      assert Unsigned(s) == 0x100 * u + s[n] && s[n] < 0x100;
    }
  }

  /** The sign bit of a 16-byte number tells which half of the range its value is in. */
  lemma SignBit(s: seq<nat>)
    requires |s| == 16 && Bytes(s)
    ensures s[0] >= 0x80 <==> Unsigned(s) >= TWO_128 / 2
  {
    hide Pow256, Unsigned;
    LeadingByte(s);
    Pow256Of16();
    Monotone(s[0], Pow256(15));
  }

  lemma Monotone(b: nat, p: nat)
    ensures b >= 0x80 ==> b * p >= 0x80 * p
    ensures b < 0x80 ==> (b + 1) * p <= 0x80 * p
  {
  }

  /** Decoding an encoded decimal gives back its mantissa and scale, for every 96-bit mantissa of
      either sign, on both sides of the 64-bit boundary. */
  lemma DecimalReadsBack(d: Decimal)
    requires IsDecimal(d)
    ensures DecodeDecimal(EncodeDecimal(d)) == Ok(d)
  {
    hide Pow256, Unsigned, Padded, ToBytes, Signed;
    if !FitsI64(d.mantissa) {
      var v := TwosComplement(d.mantissa);
      var s := ToBytes(v, 16);
      Pow256Of16();
      ToBytesValue(v, 16);
      SignBit(s);
      PaddingKeepsValue(s);
      SignedOf16(s);
    }
  }

  lemma SignedOf16(s: seq<nat>)
    requires |s| == 16
    ensures Signed(s) == if s[0] >= 0x80 then Unsigned(s) - TWO_128 else Unsigned(s)
  {
    hide Pow256, Unsigned;
    Pow256Of16();
  }

  lemma Pow256Of12()
    ensures Pow256(12) == TWO_96 && Pow256(8) == TWO_64
  {
    assert Pow256(4) == 0x1_0000_0000 by {
      assert Pow256(2) == 0x1_0000;
    }
    Pow256Adds(4, 4);
    Pow256Adds(8, 4);
  }

  /** A wire decimal decodes exactly when it has at most 16 bytes, a scale from 0 to 28, and a
      value of magnitude below 2 to the 96th; it is then that value. */
  lemma DecodesIff(w: WireDecimal)
    ensures DecodeDecimal(w).Ok? <==>
              && |w.unscaledBytes| <= 16 && 0 <= w.scale <= 28
              && -(Pow256(12) as int) < UnscaledOf(w) < Pow256(12)
    ensures DecodeDecimal(w).Ok? ==>
              && |w.unscaledBytes| <= 16 && w.scale >= 0
              && DecodeDecimal(w).value == Decimal(UnscaledOf(w), w.scale) && IsDecimal(DecodeDecimal(w).value)
  {
    hide UnscaledOf;
    Pow256Of12();
  }

  /** Exactly the mantissas of 64 bits and a sign travel as an integer; all others take 16 bytes. */
  lemma TravelsInlineIff(d: Decimal)
    requires IsDecimal(d)
    ensures EncodeDecimal(d).unscaledBytes == [] <==> -((Pow256(8) / 2) as int) <= d.mantissa < Pow256(8) / 2
    ensures EncodeDecimal(d).unscaledBytes == [] || |EncodeDecimal(d).unscaledBytes| == 16
  {
    hide Pow256;
    Pow256Of12();
    Pow256Of16();
    if !FitsI64(d.mantissa) { ToBytesValue(TwosComplement(d.mantissa), 16); }
  }
}
