/** UTF-16 units and Unicode text: `utf16_units`, `utf16_to_string`, and the encoder's `utf16be`. */
module Utf16 {
  type byte = bv8
  type unit = bv16

  const REPLACEMENT: bv32 := 0xFFFD
  const BOM: unit := 0xFEFF

  predicate IsScalar(v: bv32) {
    v < 0xD800 || 0xE000 <= v <= 0x10FFFF
  }

  /** Text that a Rust `String` can hold. */
  predicate IsText(text: seq<bv32>) {
    forall i :: 0 <= i < |text| ==> IsScalar(text[i])
  }

  // ----- bytes -----

  function High(u: unit): byte {
    ((u >> 8) & 0xFF) as byte
  }

  function Low(u: unit): byte {
    (u & 0xFF) as byte
  }

  function Join(high: byte, low: byte): unit {
    ((high as bv16) << 8) | (low as bv16)
  }

  lemma JoinMeans(high: byte, low: byte)
    ensures Join(high, low) == (high as bv16) * 0x100 + (low as bv16)
  {
  }

  lemma JoinHighLow(u: unit)
    ensures Join(High(u), Low(u)) == u
  {
  }

  /** Whole pairs; an odd byte at the end is dropped. */
  function Units(bytes: seq<byte>, bigEndian: bool): seq<unit> {
    if |bytes| < 2 then []
    else [if bigEndian then Join(bytes[0], bytes[1]) else Join(bytes[1], bytes[0])] + Units(bytes[2..], bigEndian)
  }

  function Bytes(units: seq<unit>, bigEndian: bool): seq<byte> {
    if units == [] then []
    else (if bigEndian then [High(units[0]), Low(units[0])] else [Low(units[0]), High(units[0])])
         + Bytes(units[1..], bigEndian)
  }

  lemma {:induction false} UnitsOfBytes(units: seq<unit>, bigEndian: bool)
    ensures Units(Bytes(units, bigEndian), bigEndian) == units
    ensures |Bytes(units, bigEndian)| == 2 * |units|
  {
    hide Join, High, Low;
    if units != [] {
      UnitsOfBytes(units[1..], bigEndian);
      JoinHighLow(units[0]);
      assert Bytes(units, bigEndian)[2..] == Bytes(units[1..], bigEndian);
    }
  }

  lemma {:induction false} UnitsAppend(a: seq<byte>, b: seq<byte>, bigEndian: bool)
    requires |a| % 2 == 0
    ensures Units(a + b, bigEndian) == Units(a, bigEndian) + Units(b, bigEndian)
    ensures |Units(a, bigEndian)| == |a| / 2
  {
    hide Join;
    if a == [] {
      assert a + b == b;
    } else {
      assert (a + b)[2..] == a[2..] + b;
      UnitsAppend(a[2..], b, bigEndian);
    }
  }

  lemma {:induction false} BytesAt(units: seq<unit>, bigEndian: bool, i: nat)
    requires i < |units|
    ensures |Bytes(units, bigEndian)| == 2 * |units|
    ensures Bytes(units, bigEndian)[2 * i] == if bigEndian then High(units[i]) else Low(units[i])
    ensures Bytes(units, bigEndian)[2 * i + 1] == if bigEndian then Low(units[i]) else High(units[i])
  {
    hide High, Low, Units;
    UnitsOfBytes(units, bigEndian);
    var bytes := Bytes(units, bigEndian);
    if i > 0 {
      BytesAt(units[1..], bigEndian, i - 1);
      var rest := bytes[2..];
      assert rest == Bytes(units[1..], bigEndian);
      hide Bytes;
      assert bytes[2 * i] == rest[2 * (i - 1)] && bytes[2 * i + 1] == rest[2 * (i - 1) + 1];
    }
  }

  lemma PairSwapped(units: seq<unit>, i: nat)
    requires i < |units|
    ensures |Bytes(units, false)| == |Bytes(units, true)| == 2 * |units|
    ensures Bytes(units, true)[2 * i] == Bytes(units, false)[2 * i + 1]
    ensures Bytes(units, true)[2 * i + 1] == Bytes(units, false)[2 * i]
  {
    BytesAt(units, false, i);
    BytesAt(units, true, i);
  }

  /** The encoder's `utf16be`: the little-endian bytes, each pair swapped. */
  method SwapToBigEndian(text: seq<unit>, le: seq<byte>) returns (be: array<byte>)
    requires le == Bytes(text, false)
    ensures fresh(be) && be[..] == Bytes(text, true)
  {
    hide High, Low, Bytes;
    UnitsOfBytes(text, false);
    UnitsOfBytes(text, true);
    be := new byte[|le|](_ => 0);
    ghost var wanted := Bytes(text, true);
    var i := 0;
    while i < |le|
      invariant i % 2 == 0 && i <= |le| == be.Length
      invariant be[..i] == wanted[..i]
    {
      PairSwapped(text, i / 2);
      be[i] := le[i + 1];
      be[i + 1] := le[i];
      assert be[..i + 2] == be[..i] + [be[i], be[i + 1]];
      i := i + 2;
    }
    assert be[..] == be[..i] && wanted == wanted[..i];
  }

  // ----- text -----

  predicate IsHigh(u: unit) {
    u & 0xFC00 == 0xD800
  }

  predicate IsLow(u: unit) {
    u & 0xFC00 == 0xDC00
  }

  /** The surrogates of a supplementary scalar, less 0x10000. */
  function HighOf(w: bv32): unit {
    0xD800 | (((w >> 10) & 0x3FF) as bv16)
  }

  function LowOf(w: bv32): unit {
    0xDC00 | ((w & 0x3FF) as bv16)
  }

  function Offset(high: unit, low: unit): bv32 {
    (((high & 0x3FF) as bv32) << 10) | ((low & 0x3FF) as bv32)
  }

  function Pair(v: bv32): seq<unit> {
    [HighOf(v - 0x10000), LowOf(v - 0x10000)]
  }

  function Unpair(high: unit, low: unit): bv32 {
    Offset(high, low) + 0x10000
  }

  lemma OffsetOfHalves(w: bv32)
    requires w & 0xFFF00000 == 0
    ensures IsHigh(HighOf(w)) && IsLow(LowOf(w)) && Offset(HighOf(w), LowOf(w)) == w
  {
  }

  lemma HalvesOfOffset(high: unit, low: unit)
    requires IsHigh(high) && IsLow(low)
    ensures Offset(high, low) & 0xFFF00000 == 0
    ensures HighOf(Offset(high, low)) == high && LowOf(Offset(high, low)) == low
  {
  }

  lemma Supplementary(v: bv32)
    requires 0x10000 <= v <= 0x10FFFF
    ensures (v - 0x10000) & 0xFFF00000 == 0 && (v - 0x10000) + 0x10000 == v
  {
  }

  lemma SupplementaryOffset(w: bv32)
    requires w & 0xFFF00000 == 0
    ensures 0x10000 <= w + 0x10000 <= 0x10FFFF && (w + 0x10000) - 0x10000 == w
  {
  }

  lemma PairUnpair(v: bv32)
    requires 0x10000 <= v <= 0x10FFFF
    ensures IsHigh(Pair(v)[0]) && IsLow(Pair(v)[1]) && Unpair(Pair(v)[0], Pair(v)[1]) == v
  {
    hide IsHigh, IsLow, HighOf, LowOf, Offset;
    Supplementary(v);
    OffsetOfHalves(v - 0x10000);
  }

  lemma UnpairPair(high: unit, low: unit)
    requires IsHigh(high) && IsLow(low)
    ensures 0x10000 <= Unpair(high, low) <= 0x10FFFF && Pair(Unpair(high, low)) == [high, low]
  {
    hide IsHigh, IsLow, HighOf, LowOf, Offset;
    HalvesOfOffset(high, low);
    SupplementaryOffset(Offset(high, low));
  }

  /** The two halves as numbers (section 2.1 of RFC 2781). */
  lemma PairMeans(v: bv32)
    requires 0x10000 <= v <= 0x10FFFF
    ensures var (high, low) := (Pair(v)[0] as bv32, Pair(v)[1] as bv32);
            && 0xD800 <= high < 0xDC00 <= low < 0xE000
            && v == 0x10000 + (high - 0xD800) * 0x400 + (low - 0xDC00)
  {
  }

  function UnitsOf(v: bv32): seq<unit>
    requires IsScalar(v)
  {
    if v < 0x10000 then [v as bv16] else Pair(v)
  }

  /** The units of a text, as JavaScript holds it. */
  function Encode(text: seq<bv32>): seq<unit>
    requires IsText(text)
  {
    if text == [] then [] else UnitsOf(text[0]) + Encode(text[1..])
  }

  /** `utf16_to_string`: a surrogate that is not part of a pair becomes U+FFFD. */
  function Decode(units: seq<unit>): seq<bv32> {
    if units == [] then []
    else if !IsHigh(units[0]) && !IsLow(units[0]) then [units[0] as bv32] + Decode(units[1..])
    else if IsHigh(units[0]) && |units| > 1 && IsLow(units[1]) then [Unpair(units[0], units[1])] + Decode(units[2..])
    else [REPLACEMENT] + Decode(units[1..])
  }

  /** One scalar is one unit that is no surrogate, or a pair that stands for it. */
  lemma UnitsOfScalar(v: bv32)
    requires IsScalar(v)
    ensures var u := UnitsOf(v);
            || (|u| == 1 && !IsHigh(u[0]) && !IsLow(u[0]) && u[0] as bv32 == v)
            || (|u| == 2 && IsHigh(u[0]) && !IsLow(u[0]) && IsLow(u[1]) && Unpair(u[0], u[1]) == v)
  {
    if v < 0x10000 {
      BasicUnit(v);
    } else {
      PairUnpair(v);
      SurrogatesDiffer(Pair(v)[0]);
    }
  }

  lemma BasicUnit(v: bv32)
    requires v < 0x10000 && IsScalar(v)
    ensures !IsHigh(v as bv16) && !IsLow(v as bv16) && (v as bv16) as bv32 == v
  {
  }

  /** Text survives its units. */
  lemma {:induction false} DecodeEncode(text: seq<bv32>)
    requires IsText(text)
    ensures Decode(Encode(text)) == text
  {
    hide IsHigh, IsLow, Unpair, UnitsOf, IsScalar;
    if text != [] {
      var u := UnitsOf(text[0]);
      assert IsText(text[1..]);
      DecodeEncode(text[1..]);
      UnitsOfScalar(text[0]);
      assert Encode(text)[|u|..] == Encode(text[1..]);
      assert Encode(text)[0] == u[0] && (|u| == 2 ==> Encode(text)[1] == u[1]);
      assert text == [text[0]] + text[1..];
    }
  }

  lemma SurrogatesDiffer(u: unit)
    ensures !(IsHigh(u) && IsLow(u))
  {
  }

  lemma DecodedUnit(u: unit)
    requires !IsHigh(u) && !IsLow(u)
    ensures IsScalar(u as bv32) && UnitsOf(u as bv32) == [u]
  {
  }

  lemma DecodedPair(high: unit, low: unit)
    requires IsHigh(high) && IsLow(low)
    ensures IsScalar(Unpair(high, low)) && |UnitsOf(Unpair(high, low))| == 2
  {
    UnpairPair(high, low);
  }

  /** The first character decoded, and the units it stands for and is encoded in. */
  lemma FirstDecoded(units: seq<unit>) returns (c: bv32, n: nat)
    requires units != []
    ensures 0 < n <= |units| && Decode(units) == [c] + Decode(units[n..])
    ensures IsScalar(c) && |UnitsOf(c)| == n
  {
    hide IsHigh, IsLow, Unpair, UnitsOf, IsScalar;
    var u := units[0];
    SurrogatesDiffer(u);
    if !IsHigh(u) && !IsLow(u) {
      DecodedUnit(u);
      c, n := u as bv32, 1;
    } else if IsHigh(u) && |units| > 1 && IsLow(units[1]) {
      DecodedPair(u, units[1]);
      c, n := Unpair(u, units[1]), 2;
    } else {
      ReplacementUnit();
      c, n := REPLACEMENT, 1;
    }
  }

  lemma EncodeCons(c: bv32, text: seq<bv32>)
    requires IsScalar(c) && IsText(text)
    ensures IsText([c] + text) && Encode([c] + text) == UnitsOf(c) + Encode(text)
  {
    hide UnitsOf, IsScalar;
    assert ([c] + text)[1..] == text;
  }

  /** Decoding neither adds nor loses units: what is replaced is replaced one for one. */
  lemma {:induction false} DecodeKeepsLength(units: seq<unit>)
    ensures IsText(Decode(units)) && |Encode(Decode(units))| == |units|
    decreases |units|
  {
    if units != [] {
      var c, n := FirstDecoded(units);
      hide Decode, UnitsOf, IsScalar;
      DecodeKeepsLength(units[n..]);
      EncodeCons(c, Decode(units[n..]));
    }
  }

  lemma ReplacementUnit()
    ensures IsScalar(REPLACEMENT) && |UnitsOf(REPLACEMENT)| == 1
  {
  }
}
