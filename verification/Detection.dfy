/** Exactly which texts come back from the decoders that find the byte order themselves. */
module Detection {
  import opened Utf16
  import opened ByteOrder

  // ----- UTF-16 read in the other order -----

  function Swapped(u: unit): unit {
    Join(Low(u), High(u))
  }

  function SwapAll(units: seq<unit>): seq<unit> {
    if units == [] then [] else [Swapped(units[0])] + SwapAll(units[1..])
  }

  lemma {:induction false} SwapAllAt(units: seq<unit>)
    ensures |SwapAll(units)| == |units|
    ensures forall i :: 0 <= i < |units| ==> SwapAll(units)[i] == Swapped(units[i])
  {
    hide Swapped;
    if units != [] { SwapAllAt(units[1..]); }
  }

  lemma {:induction false} UnitsOfOtherOrder(units: seq<unit>, bigEndian: bool)
    ensures Units(Bytes(units, bigEndian), !bigEndian) == SwapAll(units)
  {
    hide Join, High, Low;
    if units != [] {
      UnitsOfOtherOrder(units[1..], bigEndian);
      assert Bytes(units, bigEndian)[2..] == Bytes(units[1..], bigEndian);
    }
  }

  /** Every unit reads the same in both orders. */
  predicate Symmetric(units: seq<unit>) {
    forall i :: 0 <= i < |units| ==> Swapped(units[i]) == units[i]
  }

  /** A unit survives decoding, or is a surrogate and is replaced. */
  ghost predicate KeptOrReplaced(units: seq<unit>, again: seq<unit>) {
    && |again| == |units|
    && forall i :: 0 <= i < |units| ==>
       again[i] == units[i] || (again[i] == 0xFFFD && (IsHigh(units[i]) || IsLow(units[i])))
  }

  lemma ReplacementIsItself()
    ensures IsScalar(REPLACEMENT) && UnitsOf(REPLACEMENT) == [0xFFFD]
  {
  }

  /** How many units the first character takes, and what it is. */
  function HeadLength(units: seq<unit>): nat
    requires units != []
  {
    if IsHigh(units[0]) && |units| > 1 && IsLow(units[1]) then 2 else 1
  }

  function Head(units: seq<unit>): bv32
    requires units != []
  {
    if HeadLength(units) == 2 then Unpair(units[0], units[1])
    else if IsHigh(units[0]) || IsLow(units[0]) then REPLACEMENT
    else units[0] as bv32
  }

  lemma DecodeCons(units: seq<unit>)
    requires units != []
    ensures Decode(units) == [Head(units)] + Decode(units[HeadLength(units)..])
  {
    hide IsHigh, IsLow, Unpair;
    SurrogatesDiffer(units[0]);
  }

  lemma HeadUnits(units: seq<unit>)
    requires units != []
    ensures IsScalar(Head(units))
    ensures || UnitsOf(Head(units)) == units[..HeadLength(units)]
            || (HeadLength(units) == 1 && UnitsOf(Head(units)) == [0xFFFD] && (IsHigh(units[0]) || IsLow(units[0])))
  {
    hide IsHigh, IsLow, Unpair, UnitsOf, IsScalar;
    if HeadLength(units) == 2 {
      PairAgain(units[0], units[1]);
    } else if IsHigh(units[0]) || IsLow(units[0]) {
      ReplacementIsItself();
    } else {
      DecodedUnit(units[0]);
    }
  }

  lemma EncodeCons(text: seq<bv32>)
    requires IsText(text) && text != []
    ensures IsText(text[1..]) && Encode(text) == UnitsOf(text[0]) + Encode(text[1..])
  {
    hide UnitsOf, IsScalar;
  }

  lemma {:induction false} DecodeReplaces(units: seq<unit>)
    ensures IsText(Decode(units)) && KeptOrReplaced(units, Encode(Decode(units)))
  {
    DecodeKeepsLength(units);
    hide IsHigh, IsLow, UnitsOf, IsText, HeadLength, Head;
    if units != [] {
      var (n, text) := (HeadLength(units), Decode(units));
      HeadFits(units);
      DecodeReplaces(units[n..]);
      DecodeCons(units);
      HeadUnits(units);
      EncodeCons(text);
      hide Decode, Encode, KeptOrReplaced;
      assert text[1..] == Decode(units[n..]);
      KeptCons(units, n, UnitsOf(Head(units)), Encode(Decode(units[n..])));
    }
  }

  lemma KeptCons(units: seq<unit>, n: nat, head: seq<unit>, rest: seq<unit>)
    requires 0 < n <= |units| && KeptOrReplaced(units[n..], rest)
    requires head == units[..n] || (n == 1 && head == [0xFFFD] && (IsHigh(units[0]) || IsLow(units[0])))
    ensures KeptOrReplaced(units, head + rest)
  {
    hide IsHigh, IsLow;
    assert forall i :: n <= i < |units| ==> units[i] == units[n..][i - n] && (head + rest)[i] == rest[i - n];
  }

  lemma HeadFits(units: seq<unit>)
    requires units != []
    ensures 0 < HeadLength(units) <= |units|
  {
  }

  lemma PairAgain(high: unit, low: unit)
    requires IsHigh(high) && IsLow(low)
    ensures IsScalar(Unpair(high, low)) && UnitsOf(Unpair(high, low)) == [high, low]
  {
    hide IsHigh, IsLow, Unpair;
    UnpairPair(high, low);
  }

  lemma ReplacementSwapped()
    ensures !IsHigh(Swapped(0xFFFD)) && !IsLow(Swapped(0xFFFD))
  {
  }

  /** A text read in the other order comes back exactly when no unit changes. */
  lemma OtherOrder16(text: seq<bv32>)
    requires IsText(text)
    ensures Decode(SwapAll(Encode(text))) == text <==> Symmetric(Encode(text))
  {
    var units := Encode(text);
    SwapAllAt(units);
    DecodeEncode(text);
    if Symmetric(units) {
      assert SwapAll(units) == units;
    }
    DecodeReplaces(SwapAll(units));
    ReplacementSwapped();
    hide Swapped, IsHigh, IsLow, SwapAll, Decode, Encode, IsText;
  }

  // ----- UTF-16 detection -----

  /** A unit that looks like ASCII, or, `back`, like ASCII in the other order. */
  predicate Leans(u: unit, back: bool) {
    if back then High(u) != 0 && Low(u) == 0 else High(u) == 0 && Low(u) != 0
  }

  function Leaning(units: seq<unit>, n: nat, back: bool): nat
    requires n <= |units|
  {
    if n == 0 then 0 else Leaning(units, n - 1, back) + if Leans(units[n - 1], back) then 1 else 0
  }

  lemma {:induction false} VotesCounted(units: seq<unit>, bigEndian: bool, n: nat, back: bool)
    requires n <= |units| && |Bytes(units, bigEndian)| == 2 * |units|
    ensures Count16(Bytes(units, bigEndian), n, bigEndian != back) == Leaning(units, n, back)
  {
    hide High, Low, Bytes;
    if n > 0 {
      VotesCounted(units, bigEndian, n - 1, back);
      BytesAt(units, bigEndian, n - 1);
    }
  }

  function Looked16(units: seq<unit>): nat {
    if |units| < 32 then |units| else 32
  }

  lemma MarkOf(u: unit)
    ensures High(u) == 0xFE && Low(u) == 0xFF <==> u == BOM
    ensures High(u) == 0xFF && Low(u) == 0xFE <==> u == 0xFFFE
  {
  }

  /** The first units speak for their own order: more votes, or as many when that is the order
      taken on a tie. */
  predicate Outvotes16(units: seq<unit>, bigEndian: bool) {
    var (own, back) := (Leaning(units, Looked16(units), false), Leaning(units, Looked16(units), true));
    own > back || (!bigEndian && own == back)
  }

  lemma Detects16(units: seq<unit>, bigEndian: bool)
    requires units != []
    ensures IsBigEndian16(Bytes(units, bigEndian)) == bigEndian <==>
            units[0] == BOM || (units[0] != 0xFFFE && Outvotes16(units, bigEndian))
  {
    UnitsOfBytes(units, bigEndian);
    BytesAt(units, bigEndian, 0);
    MarkOf(units[0]);
    hide Bytes, Units, High, Low;
    VotesCounted(units, bigEndian, Looked16(units), false);
    VotesCounted(units, bigEndian, Looked16(units), true);
    hide Count16, Leaning;
    assert Inspected16(Bytes(units, bigEndian)) == Looked16(units);
  }

  /** Which texts come back from the detecting decoder: those with a mark of their own, those whose
      first 32 units outvote the other order and that do not open with the other order's mark, and
      those that read the same either way. */
  lemma Recovered16(text: seq<bv32>, bigEndian: bool)
    requires IsText(text)
    ensures var units := Encode(text);
            DecodeDetected16(Bytes(units, bigEndian)) == text <==>
            || Symmetric(units)
            || (units != [] && (units[0] == BOM || (units[0] != 0xFFFE && Outvotes16(units, bigEndian))))
  {
    var units := Encode(text);
    var bytes := Bytes(units, bigEndian);
    UnitsOfBytes(units, bigEndian);
    UnitsOfOtherOrder(units, bigEndian);
    DecodeEncode(text);
    OtherOrder16(text);
    if units == [] {
      assert SwapAll(units) == units;
    } else {
      Detects16(units, bigEndian);
    }
    hide IsBigEndian16, Symmetric, Outvotes16, Bytes, Units, Decode, Encode, SwapAll, IsText;
  }

  /** U+0100 alone is lost in either order. */
  lemma LostText16(bigEndian: bool)
    ensures IsText([0x0100]) && DecodeDetected16(Bytes(Encode([0x0100]), bigEndian)) != [0x0100]
  {
    var text: seq<bv32> := [0x0100];
    assert Encode(text) == [0x0100];
    Recovered16(text, bigEndian);
    assert Leaning([0x0100], 1, false) == 0 && Leaning([0x0100], 1, true) == 1;
    assert Swapped(Encode(text)[0]) != Encode(text)[0];
  }

  // ----- UTF-32 -----

  /** The value of the same four bytes read in the other order. */
  function Reversed32(v: bv32): bv32 {
    Word(ByteAt(v, 0), ByteAt(v, 1), ByteAt(v, 2), ByteAt(v, 3))
  }

  /** What a text becomes in the other order. */
  function Misread32(text: seq<bv32>): seq<bv32> {
    if text == [] then [] else [ToChar(Reversed32(text[0]))] + Misread32(text[1..])
  }

  predicate Unmoved(text: seq<bv32>) {
    forall i :: 0 <= i < |text| ==> ToChar(Reversed32(text[i])) == text[i]
  }

  /** A character is unmoved when its bytes read the same, and U+FFFD is because what its bytes
      read as is no character. */
  lemma UnmovedMeans(v: bv32)
    requires IsScalar(v)
    ensures ToChar(Reversed32(v)) == v <==> v == REPLACEMENT || Reversed32(v) == v
  {
    if v == REPLACEMENT { assert !IsScalar(Reversed32(REPLACEMENT)); }
  }

  lemma {:induction false} MisreadSame(text: seq<bv32>)
    ensures |Misread32(text)| == |text|
    ensures Misread32(text) == text <==> Unmoved(text)
  {
    hide Reversed32, ToChar;
    if text != [] {
      MisreadSame(text[1..]);
      var first := ToChar(Reversed32(text[0]));
      assert text == [text[0]] + text[1..];
      assert Misread32(text) == text <==> first == text[0] && Misread32(text[1..]) == text[1..] by {
        assert Misread32(text)[0] == first && Misread32(text)[1..] == Misread32(text[1..]);
      }
      assert Unmoved(text) <==> first == text[0] && Unmoved(text[1..]) by {
        assert forall i :: 0 < i < |text| ==> text[i] == text[1..][i - 1];
        assert forall i :: 0 <= i < |text| - 1 ==> text[1..][i] == text[i + 1];
      }
    }
  }

  lemma {:induction false} DecodeOtherOrder32(text: seq<bv32>, bigEndian: bool)
    ensures Decode32(Encode32(text, bigEndian), !bigEndian) == Misread32(text)
  {
    hide Word, ByteAt, ToChar;
    if text != [] {
      DecodeOtherOrder32(text[1..], bigEndian);
      assert Encode32(text, bigEndian)[4..] == Encode32(text[1..], bigEndian);
    }
  }

  /** What a character adds to the score of its own order, and, `back`, to that of the other. */
  function Adds(v: bv32, back: bool): int {
    if back then
      (if v != 0 && v & 0xFFFF == 0 then 1 else 0) - (if v & 0xFF != 0 || (v >> 8) & 0xFF > 0x10 then 1 else 0)
    else if 1 <= v <= 0xFFFF then 1 else 0
  }

  function Adding(text: seq<bv32>, n: nat, back: bool): int
    requires n <= |text|
  {
    if n == 0 then 0 else Adding(text, n - 1, back) + Adds(text[n - 1], back)
  }

  lemma AddsIsScore(v: bv32, bigEndian: bool, back: bool)
    requires IsScalar(v)
    ensures var b := WordBytes(v, bigEndian);
            (if Plausible32(b, bigEndian != back) then 1 else 0) - (if Invalid32(b, bigEndian != back) then 1 else 0)
              == Adds(v, back)
  {
  }

  lemma {:induction false} ScoresAdded(text: seq<bv32>, bigEndian: bool, n: nat, back: bool)
    requires IsText(text) && n <= |text| && |Encode32(text, bigEndian)| == 4 * |text|
    ensures Score32(Encode32(text, bigEndian), n, bigEndian != back) == Adding(text, n, back)
  {
    hide WordBytes, Plausible32, Invalid32, Encode32, Adds, IsScalar;
    if n > 0 {
      ScoresAdded(text, bigEndian, n - 1, back);
      ScoreNext(text, bigEndian, n - 1, bigEndian != back);
      AddsIsScore(text[n - 1], bigEndian, back);
      hide Score32;
    }
  }

  function Looked32(text: seq<bv32>): nat {
    if |text| < 100 then |text| else 100
  }

  predicate Outvotes32(text: seq<bv32>, bigEndian: bool) {
    var (own, back) := (Adding(text, Looked32(text), false), Adding(text, Looked32(text), true));
    own > back || (!bigEndian && own == back)
  }

  lemma MarkOf32(v: bv32, bigEndian: bool)
    requires IsScalar(v)
    ensures WordBytes(v, bigEndian) == [0, 0, 0xFE, 0xFF] <==> bigEndian && v == 0xFEFF
    ensures WordBytes(v, bigEndian) == [0xFF, 0xFE, 0, 0] <==> !bigEndian && v == 0xFEFF
  {
  }

  lemma Detects32(text: seq<bv32>, bigEndian: bool)
    requires IsText(text) && text != []
    ensures IsBigEndian32(Encode32(text, bigEndian)) == bigEndian <==> text[0] == 0xFEFF || Outvotes32(text, bigEndian)
  {
    Encode32Length(text, bigEndian);
    WordAt(text, bigEndian, 0);
    MarkOf32(text[0], bigEndian);
    hide Encode32, WordBytes, IsScalar;
    ScoresAdded(text, bigEndian, Looked32(text), false);
    ScoresAdded(text, bigEndian, Looked32(text), true);
    hide Score32, Adding;
    assert Inspected32(Encode32(text, bigEndian)) == Looked32(text);
    assert Encode32(text, bigEndian)[..4] == Encode32(text, bigEndian)[4 * 0..4 * 0 + 4];
  }

  /** The same for UTF-32, over the first hundred characters. */
  lemma Recovered32(text: seq<bv32>, bigEndian: bool)
    requires IsText(text)
    ensures DecodeDetected32(Encode32(text, bigEndian)) == text <==>
            Unmoved(text) || (text != [] && (text[0] == 0xFEFF || Outvotes32(text, bigEndian)))
  {
    DecodeEncode32(text, bigEndian);
    DecodeOtherOrder32(text, bigEndian);
    MisreadSame(text);
    if text == [] {
      assert Misread32(text) == text;
    } else {
      Detects32(text, bigEndian);
    }
    hide IsBigEndian32, Unmoved, Outvotes32, Encode32, Decode32, Misread32, IsText;
  }

  /** U+10000 alone is lost in either order. */
  lemma LostText32(bigEndian: bool)
    ensures IsText([0x10000]) && DecodeDetected32(Encode32([0x10000], bigEndian)) != [0x10000]
  {
    var text: seq<bv32> := [0x10000];
    Recovered32(text, bigEndian);
    assert Adding(text, 1, false) == 0 && Adding(text, 1, true) == 1;
    UnmovedMeans(0x10000);
    assert Reversed32(0x10000) != 0x10000;
    assert ToChar(Reversed32(text[0])) != text[0];
  }
}
