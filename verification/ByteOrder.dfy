/** The decoders that find the byte order themselves: `utf16_detect_big_endian`,
    `utf32_detect_big_endian` and `utf32_decode`. */
module ByteOrder {
  import opened Utf16

  // ----- UTF-16 -----

  /** A pair that looks like ASCII in this order. */
  predicate Votes16(first: byte, second: byte, bigEndian: bool) {
    if bigEndian then first == 0 && second != 0 else first != 0 && second == 0
  }

  function Count16(bytes: seq<byte>, pairs: nat, bigEndian: bool): nat
    requires 2 * pairs <= |bytes|
  {
    if pairs == 0 then 0
    else Count16(bytes, pairs - 1, bigEndian) +
         if Votes16(bytes[2 * pairs - 2], bytes[2 * pairs - 1], bigEndian) then 1 else 0
  }

  function Inspected16(bytes: seq<byte>): nat {
    if |bytes| / 2 < 32 then |bytes| / 2 else 32
  }

  function IsBigEndian16(bytes: seq<byte>): bool {
    if |bytes| >= 2 && bytes[0] == 0xFE && bytes[1] == 0xFF then true
    else if |bytes| >= 2 && bytes[0] == 0xFF && bytes[1] == 0xFE then false
    else if |bytes| < 2 then false
    else Count16(bytes, Inspected16(bytes), true) > Count16(bytes, Inspected16(bytes), false)
  }

  method Detect16(bytes: seq<byte>) returns (bigEndian: bool)
    ensures bigEndian == IsBigEndian16(bytes)
  {
    if |bytes| >= 2 && bytes[0] == 0xFE && bytes[1] == 0xFF {
      return true;
    }
    if |bytes| >= 2 && bytes[0] == 0xFF && bytes[1] == 0xFE {
      return false;
    }
    if |bytes| < 2 {
      return false;
    }
    hide Votes16;
    var len := if |bytes| - |bytes| % 2 < 64 then |bytes| - |bytes| % 2 else 64;
    var le, be := 0, 0;
    for pair := 0 to len / 2
      invariant be == Count16(bytes, pair, true) && le == Count16(bytes, pair, false)
    {
      if Votes16(bytes[2 * pair], bytes[2 * pair + 1], true) {
        be := be + 1;
      }
      if Votes16(bytes[2 * pair], bytes[2 * pair + 1], false) {
        le := le + 1;
      }
    }
    return be > le;
  }

  /** `Decoder::Utf16Detect`. */
  function DecodeDetected16(bytes: seq<byte>): seq<bv32> {
    Decode(Units(bytes, IsBigEndian16(bytes)))
  }

  lemma BomBytes()
    ensures High(BOM) == 0xFE && Low(BOM) == 0xFF
  {
  }

  /** A byte-order mark decides: any text behind one is recovered, in either order. */
  lemma MarkedText16(text: seq<bv32>, bigEndian: bool)
    requires IsText(text)
    ensures IsText([0xFEFF] + text)
    ensures DecodeDetected16(Bytes(Encode([0xFEFF] + text), bigEndian)) == [0xFEFF] + text
  {
    var marked := [0xFEFF] + text;
    MarkIsUnit();
    assert marked[0] == 0xFEFF;
    assert Encode(marked)[0] == BOM;
    BytesAt(Encode(marked), bigEndian, 0);
    BomBytes();
    UnitsOfBytes(Encode(marked), bigEndian);
    DecodeEncode(marked);
  }

  lemma MarkIsUnit()
    ensures IsScalar(0xFEFF) && UnitsOf(0xFEFF) == [BOM]
  {
  }

  ghost predicate IsLatin(text: seq<bv32>) {
    forall i :: 0 <= i < |text| ==> 1 <= text[i] <= 0xFF
  }

  lemma LatinUnit(v: bv32)
    requires 1 <= v <= 0xFF
    ensures IsScalar(v) && UnitsOf(v) == [v as bv16] && High(v as bv16) == 0 && Low(v as bv16) != 0
  {
  }

  lemma {:induction false} LatinUnits(text: seq<bv32>)
    requires IsLatin(text)
    ensures IsText(text) && |Encode(text)| == |text|
    ensures forall i :: 0 <= i < |text| ==> High(Encode(text)[i]) == 0 && Low(Encode(text)[i]) != 0
  {
    hide High, Low, UnitsOf, IsScalar;
    if text != [] {
      LatinUnit(text[0]);
      LatinUnits(text[1..]);
      assert IsText(text) by { assert forall i :: 0 < i < |text| ==> text[i] == text[1..][i - 1]; }
      assert Encode(text)[1..] == Encode(text[1..]);
    }
  }

  lemma {:induction false} LatinVotes(units: seq<unit>, bigEndian: bool, pairs: nat)
    requires pairs <= |units| && |Bytes(units, bigEndian)| == 2 * |units|
    requires forall i :: 0 <= i < |units| ==> High(units[i]) == 0 && Low(units[i]) != 0
    ensures Count16(Bytes(units, bigEndian), pairs, bigEndian) == pairs
    ensures Count16(Bytes(units, bigEndian), pairs, !bigEndian) == 0
  {
    hide High, Low;
    if pairs > 0 {
      LatinVotes(units, bigEndian, pairs - 1);
      BytesAt(units, bigEndian, pairs - 1);
    }
  }

  /** Without a mark, any non-empty text of U+0001..U+00FF is recovered in either order. */
  lemma LatinText16(text: seq<bv32>, bigEndian: bool)
    requires IsLatin(text) && text != []
    ensures IsText(text) && DecodeDetected16(Bytes(Encode(text), bigEndian)) == text
  {
    LatinUnits(text);
    var units := Encode(text);
    UnitsOfBytes(units, bigEndian);
    BytesAt(units, bigEndian, 0);
    LatinVotes(units, bigEndian, Inspected16(Bytes(units, bigEndian)));
    DecodeEncode(text);
  }

  // ----- UTF-32 -----

  function Word(b0: byte, b1: byte, b2: byte, b3: byte): bv32 {
    ((b0 as bv32) << 24) | ((b1 as bv32) << 16) | ((b2 as bv32) << 8) | (b3 as bv32)
  }

  function ToChar(v: bv32): bv32 {
    if IsScalar(v) then v else REPLACEMENT
  }

  /** Whole four-byte units; what is no character becomes U+FFFD, a short tail is dropped. */
  function Decode32(bytes: seq<byte>, bigEndian: bool): seq<bv32> {
    if |bytes| < 4 then []
    else [ToChar(if bigEndian then Word(bytes[0], bytes[1], bytes[2], bytes[3])
                 else Word(bytes[3], bytes[2], bytes[1], bytes[0]))]
         + Decode32(bytes[4..], bigEndian)
  }

  function ByteAt(v: bv32, shift: nat): byte
    requires shift < 4
  {
    if shift == 0 then (v & 0xFF) as byte
    else if shift == 1 then ((v >> 8) & 0xFF) as byte
    else if shift == 2 then ((v >> 16) & 0xFF) as byte
    else ((v >> 24) & 0xFF) as byte
  }

  function WordBytes(v: bv32, bigEndian: bool): (r: seq<byte>)
    ensures |r| == 4
  {
    if bigEndian then [ByteAt(v, 3), ByteAt(v, 2), ByteAt(v, 1), ByteAt(v, 0)]
    else [ByteAt(v, 0), ByteAt(v, 1), ByteAt(v, 2), ByteAt(v, 3)]
  }

  function Encode32(text: seq<bv32>, bigEndian: bool): seq<byte> {
    if text == [] then [] else WordBytes(text[0], bigEndian) + Encode32(text[1..], bigEndian)
  }

  lemma WordMeans(a: byte, b: byte, c: byte, d: byte)
    ensures Word(a, b, c, d) ==
            (a as bv32) * 0x100_0000 + (b as bv32) * 0x1_0000 + (c as bv32) * 0x100 + (d as bv32)
  {
  }

  lemma WordOfBytes(v: bv32)
    ensures Word(ByteAt(v, 3), ByteAt(v, 2), ByteAt(v, 1), ByteAt(v, 0)) == v
  {
  }

  lemma {:induction false} DecodeEncode32(text: seq<bv32>, bigEndian: bool)
    requires IsText(text)
    ensures Decode32(Encode32(text, bigEndian), bigEndian) == text
  {
    hide Word, ByteAt;
    if text != [] {
      DecodeEncode32(text[1..], bigEndian);
      WordOfBytes(text[0]);
      assert Encode32(text, bigEndian)[4..] == Encode32(text[1..], bigEndian);
    }
  }

  /** A unit that cannot be a character in this order. */
  predicate Invalid32(b: seq<byte>, bigEndian: bool)
    requires |b| == 4
  {
    if bigEndian then b[0] != 0 || b[1] > 0x10 else b[3] != 0 || b[2] > 0x10
  }

  /** A unit that would be a non-NUL BMP character in this order. */
  predicate Plausible32(b: seq<byte>, bigEndian: bool)
    requires |b| == 4
  {
    if bigEndian then b[0] == 0 && b[1] == 0 && (b[2] != 0 || b[3] != 0)
    else (b[0] != 0 || b[1] != 0) && b[2] == 0 && b[3] == 0
  }

  /** Plausible less invalid units among the first `n`. */
  function Score32(bytes: seq<byte>, n: nat, bigEndian: bool): int
    requires 4 * n <= |bytes|
  {
    if n == 0 then 0
    else
      var b := bytes[4 * n - 4..4 * n];
      Score32(bytes, n - 1, bigEndian) + (if Plausible32(b, bigEndian) then 1 else 0)
      - (if Invalid32(b, bigEndian) then 1 else 0)
  }

  function Inspected32(bytes: seq<byte>): nat {
    if |bytes| / 4 < 100 then |bytes| / 4 else 100
  }

  function IsBigEndian32(bytes: seq<byte>): bool {
    if |bytes| >= 4 && bytes[..4] == [0xFF, 0xFE, 0, 0] then false
    else if |bytes| >= 4 && bytes[..4] == [0, 0, 0xFE, 0xFF] then true
    else Score32(bytes, Inspected32(bytes), true) > Score32(bytes, Inspected32(bytes), false)
  }

  method Detect32(bytes: seq<byte>) returns (bigEndian: bool)
    ensures bigEndian == IsBigEndian32(bytes)
  {
    if |bytes| >= 4 && bytes[..4] == [0xFF, 0xFE, 0, 0] {
      return false;
    }
    if |bytes| >= 4 && bytes[..4] == [0, 0, 0xFE, 0xFF] {
      return true;
    }
    hide Invalid32, Plausible32;
    var invalidLe, invalidBe, bmpLe, bmpBe := 0, 0, 0, 0;
    for n := 0 to Inspected32(bytes)
      invariant bmpBe - invalidBe == Score32(bytes, n, true) && bmpLe - invalidLe == Score32(bytes, n, false)
    {
      var b := bytes[4 * n..4 * n + 4];
      if Invalid32(b, true) {
        invalidBe := invalidBe + 1;
      }
      if Invalid32(b, false) {
        invalidLe := invalidLe + 1;
      }
      if Plausible32(b, true) {
        bmpBe := bmpBe + 1;
      }
      if Plausible32(b, false) {
        bmpLe := bmpLe + 1;
      }
    }
    return bmpBe - invalidBe > bmpLe - invalidLe;
  }

  /** `Decoder::Utf32Detect`. */
  function DecodeDetected32(bytes: seq<byte>): seq<bv32> {
    Decode32(bytes, IsBigEndian32(bytes))
  }

  lemma MarkBytes32(bigEndian: bool)
    ensures WordBytes(0xFEFF, bigEndian) == if bigEndian then [0, 0, 0xFE, 0xFF] else [0xFF, 0xFE, 0, 0]
  {
  }

  lemma MarkedText32(text: seq<bv32>, bigEndian: bool)
    requires IsText(text)
    ensures DecodeDetected32(Encode32([0xFEFF] + text, bigEndian)) == [0xFEFF] + text
  {
    var marked := [0xFEFF] + text;
    MarkIsUnit();
    MarkBytes32(bigEndian);
    assert marked[0] == 0xFEFF;
    assert Encode32(marked, bigEndian)[..4] == WordBytes(0xFEFF, bigEndian);
    DecodeEncode32(marked, bigEndian);
  }

  ghost predicate IsBasic(text: seq<bv32>) {
    forall i :: 0 <= i < |text| ==> IsScalar(text[i]) && 1 <= text[i] <= 0xFFFF
  }

  lemma BasicWord(v: bv32, bigEndian: bool)
    requires 1 <= v <= 0xFFFF
    ensures var b := WordBytes(v, bigEndian);
            && Plausible32(b, bigEndian) && !Invalid32(b, bigEndian) && !Plausible32(b, !bigEndian)
            && b != if bigEndian then [0xFF, 0xFE, 0, 0] else [0, 0, 0xFE, 0xFF]
  {
  }

  lemma {:induction false} WordAt(text: seq<bv32>, bigEndian: bool, i: nat)
    requires i < |text|
    ensures |Encode32(text, bigEndian)| == 4 * |text|
    ensures Encode32(text, bigEndian)[4 * i..4 * i + 4] == WordBytes(text[i], bigEndian)
  {
    hide WordBytes;
    Encode32Length(text, bigEndian);
    var bytes := Encode32(text, bigEndian);
    if i == 0 {
      assert bytes[..4] == WordBytes(text[0], bigEndian);
    } else {
      WordAt(text[1..], bigEndian, i - 1);
      assert bytes[4..] == Encode32(text[1..], bigEndian);
      assert bytes[4 * i..4 * i + 4] == bytes[4..][4 * i - 4..4 * i];
    }
  }

  lemma {:induction false} Encode32Length(text: seq<bv32>, bigEndian: bool)
    ensures |Encode32(text, bigEndian)| == 4 * |text|
  {
    hide ByteAt;
    if text != [] { Encode32Length(text[1..], bigEndian); }
  }

  /** What the `n`-th character adds to the score of an order. */
  lemma ScoreNext(text: seq<bv32>, bigEndian: bool, n: nat, asked: bool)
    requires n < |text| && |Encode32(text, bigEndian)| == 4 * |text|
    ensures var (bytes, b) := (Encode32(text, bigEndian), WordBytes(text[n], bigEndian));
            Score32(bytes, n + 1, asked) ==
            Score32(bytes, n, asked) + (if Plausible32(b, asked) then 1 else 0) - (if Invalid32(b, asked) then 1 else 0)
  {
    hide WordBytes, Plausible32, Invalid32, Encode32;
    WordAt(text, bigEndian, n);
  }

  lemma BasicAt(text: seq<bv32>, i: nat)
    requires IsBasic(text) && i < |text|
    ensures 1 <= text[i] <= 0xFFFF
  {
  }

  lemma {:induction false} BasicScores(text: seq<bv32>, bigEndian: bool, n: nat)
    requires IsBasic(text) && n <= |text| && |Encode32(text, bigEndian)| == 4 * |text|
    ensures Score32(Encode32(text, bigEndian), n, bigEndian) == n
    ensures Score32(Encode32(text, bigEndian), n, !bigEndian) <= 0
  {
    if n > 0 {
      BasicAt(text, n - 1);
      hide *;
      BasicScores(text, bigEndian, n - 1);
      ScoreNext(text, bigEndian, n - 1, bigEndian);
      ScoreNext(text, bigEndian, n - 1, !bigEndian);
      BasicWord(text[n - 1], bigEndian);
    } else {
      hide Encode32;
    }
  }

  /** Without a mark, any non-empty text of non-NUL BMP characters is recovered in either order. */
  lemma BasicText32(text: seq<bv32>, bigEndian: bool)
    requires IsBasic(text) && text != []
    ensures DecodeDetected32(Encode32(text, bigEndian)) == text
  {
    hide WordBytes, Plausible32, Invalid32, Decode32;
    Encode32Length(text, bigEndian);
    WordAt(text, bigEndian, 0);
    BasicWord(text[0], bigEndian);
    BasicScores(text, bigEndian, Inspected32(Encode32(text, bigEndian)));
    DecodeEncode32(text, bigEndian);
  }
}
