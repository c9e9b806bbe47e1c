/** The UTF-7 body decoders (RFC 2152, "UTF-7 Definition", and section 5.1.3 of RFC 3501) and
    the encoders they must invert. `mail` chooses the IMAP variant. */
module Utf7 {
  import opened Base64
  import opened Utf16

  const DASH: bv8 := 45
  const PLUS: bv8 := 43
  const AMPERSAND: bv8 := 38

  function Shift(mail: bool): bv8 {
    if mail then AMPERSAND else PLUS
  }

  // ----- decoding -----

  /** The length of the run of base64 characters at the front. */
  function RunLength(bytes: seq<bv8>, mail: bool): nat {
    if bytes == [] || !InAlphabet(bytes[0], mail) then 0 else 1 + RunLength(bytes[1..], mail)
  }

  lemma {:induction false} RunLengthFits(bytes: seq<bv8>, mail: bool)
    ensures RunLength(bytes, mail) <= |bytes|
  {
    hide InAlphabet;
    if bytes != [] { RunLengthFits(bytes[1..], mail); }
  }

  function DropBom(units: seq<unit>): seq<unit> {
    if units != [] && units[0] == BOM then units[1..] else units
  }

  /** One run: base64, then big-endian units, then its own byte-order mark dropped. */
  function DecodeRun(chars: seq<bv8>, mail: bool): seq<unit> {
    DropBom(Units(Lenient(chars, mail), true))
  }

  /** What the run `rest[..n]` after a shift byte stands for. */
  function Shifted(rest: seq<bv8>, n: nat, shift: bv8, mail: bool): seq<unit>
    requires n <= |rest|
  {
    if n == 0 && rest != [] && rest[0] == DASH then [shift as bv16]
    else if n == |rest| then DecodeRun(rest[..n / 8 * 8], mail) + DecodeRun(rest[n / 8 * 8..], mail)
    else DecodeRun(rest[..n], mail)
  }

  /** How much of `rest` the run takes up, its closing `-` included. */
  function Consumed(rest: seq<bv8>, n: nat): nat
    requires n <= |rest|
    ensures Consumed(rest, n) <= |rest|
  {
    if n < |rest| && rest[n] == DASH then n + 1 else n
  }

  function Direct(byte: bv8): unit {
    if byte < 0x80 then byte as bv16 else 0xFFFD
  }

  /** The units of a whole body. */
  function DecodeUnits(bytes: seq<bv8>, shift: bv8, mail: bool): seq<unit>
    decreases |bytes|
  {
    if bytes == [] then []
    else if bytes[0] != shift then [Direct(bytes[0])] + DecodeUnits(bytes[1..], shift, mail)
    else
      RunLengthFits(bytes[1..], mail);
      var n := RunLength(bytes[1..], mail);
      Shifted(bytes[1..], n, shift, mail) + DecodeUnits(bytes[1..][Consumed(bytes[1..], n)..], shift, mail)
  }

  method ScanRun(bytes: seq<bv8>, start: nat, mail: bool) returns (end: nat)
    requires start <= |bytes|
    ensures end == start + RunLength(bytes[start..], mail) && end <= |bytes|
  {
    hide InAlphabet;
    end := start;
    while end < |bytes| && InAlphabet(bytes[end], mail)
      invariant start <= end <= |bytes|
      invariant end - start + RunLength(bytes[end..], mail) == RunLength(bytes[start..], mail)
    {
      assert bytes[end..][1..] == bytes[end + 1..];
      end := end + 1;
    }
    RunLengthFits(bytes[start..], mail);
  }

  method DecodeRunOf(chars: seq<bv8>, mail: bool) returns (units: seq<unit>)
    ensures units == DecodeRun(chars, mail)
  {
    hide Lenient, Units;
    var decoded := DecodeLenient(chars, mail);
    var run := Units(decoded, true);
    var skip := if run != [] && run[0] == BOM then 1 else 0;
    units := run[skip..];
  }

  lemma DecodeStep(bytes: seq<bv8>, i: nat, shift: bv8, mail: bool)
    requires i < |bytes| && bytes[i] == shift
    ensures var n := RunLength(bytes[i + 1..], mail);
            && n <= |bytes| - i - 1
            && DecodeUnits(bytes[i..], shift, mail) ==
               Shifted(bytes[i + 1..], n, shift, mail)
                 + DecodeUnits(bytes[i + 1 + Consumed(bytes[i + 1..], n)..], shift, mail)
  {
    hide Shifted, RunLength;
    RunLengthFits(bytes[i + 1..], mail);
    var n := RunLength(bytes[i + 1..], mail);
    assert bytes[i..][1..] == bytes[i + 1..];
    assert bytes[i + 1..][Consumed(bytes[i + 1..], n)..] == bytes[i + 1 + Consumed(bytes[i + 1..], n)..];
  }

  /** The part of the decoder after a shift byte at `start - 1`. */
  method DecodeShifted(bytes: seq<bv8>, start: nat, end: nat, shift: bv8, mail: bool) returns (units: seq<unit>)
    requires start <= end <= |bytes|
    ensures units == Shifted(bytes[start..], end - start, shift, mail)
  {
    hide DecodeRun;
    ghost var rest, n := bytes[start..], end - start;
    if end == start && end < |bytes| && bytes[end] == DASH {
      units := [shift as bv16];
    } else if end == |bytes| {
      var whole := start + (end - start) / 8 * 8;
      assert bytes[start..whole] == rest[..n / 8 * 8] && bytes[whole..end] == rest[n / 8 * 8..];
      var first := DecodeRunOf(bytes[start..whole], mail);
      var second := DecodeRunOf(bytes[whole..end], mail);
      units := first + second;
    } else {
      assert bytes[start..end] == rest[..n];
      units := DecodeRunOf(bytes[start..end], mail);
    }
  }

  lemma DirectStep(bytes: seq<bv8>, i: nat, shift: bv8, mail: bool)
    requires i < |bytes| && bytes[i] != shift
    ensures DecodeUnits(bytes[i..], shift, mail) == [Direct(bytes[i])] + DecodeUnits(bytes[i + 1..], shift, mail)
  {
    hide Shifted, RunLength;
    assert bytes[i..][1..] == bytes[i + 1..];
  }

  lemma NothingLeft(bytes: seq<bv8>, shift: bv8, mail: bool)
    ensures DecodeUnits(bytes[|bytes|..], shift, mail) == []
  {
  }

  /** One pass of the loop over a shift byte at `i` and its run up to `end`. */
  lemma RunDecoded(bytes: seq<bv8>, i: nat, end: nat, shift: bv8, mail: bool, units: seq<unit>, run: seq<unit>)
    requires i < |bytes| && bytes[i] == shift && end == i + 1 + RunLength(bytes[i + 1..], mail) && end <= |bytes|
    requires run == Shifted(bytes[i + 1..], end - i - 1, shift, mail)
    ensures var next := if end < |bytes| && bytes[end] == DASH then end + 1 else end;
            (units + run) + DecodeUnits(bytes[next..], shift, mail) == units + DecodeUnits(bytes[i..], shift, mail)
  {
    hide Shifted, RunLength, DecodeUnits;
    DecodeStep(bytes, i, shift, mail);
  }

  /** `utf7_decode`. */
  method DecodeBody(bytes: seq<bv8>, shift: bv8, mail: bool) returns (text: seq<bv32>)
    ensures text == Decode(DecodeUnits(bytes, shift, mail))
  {
    hide Shifted, RunLength, Decode, DecodeUnits, Direct, Consumed;
    var units: seq<unit> := [];
    var i := 0;
    assert bytes[0..] == bytes;
    while i < |bytes|
      invariant i <= |bytes| && units + DecodeUnits(bytes[i..], shift, mail) == DecodeUnits(bytes, shift, mail)
    {
      var byte := bytes[i];
      if byte != shift {
        DirectStep(bytes, i, shift, mail);
        units := units + [Direct(byte)];
        i := i + 1;
        continue;
      }
      var start := i + 1;
      var end := ScanRun(bytes, start, mail);
      var run := DecodeShifted(bytes, start, end, shift, mail);
      RunDecoded(bytes, i, end, shift, mail, units, run);
      units := units + run;
      i := if end < |bytes| && bytes[end] == DASH then end + 1 else end;
    }
    NothingLeft(bytes, shift, mail);
    assert units + [] == units;
    text := Decode(units);
  }

  // ----- encoding -----

  /** The units written as themselves: `A-Za-z0-9'(),-./:? \n\r\t` for RFC 2152, and
      printable ASCII for IMAP. */
  predicate IsDirect(u: unit, mail: bool) {
    if mail then 0x20 <= u <= 0x7e
    else 65 <= u <= 90 || 97 <= u <= 122 || 48 <= u <= 57 || 39 <= u <= 41 || 44 <= u <= 47
         || u == 58 || u == 63 || u == 32 || u == 10 || u == 13 || u == 9
  }

  /** The classes of the two patterns, character by character. */
  lemma DirectClass(u: unit)
    requires u < 0x80
    ensures IsDirect(u, false) <==>
            || 'A' <= u as char <= 'Z' || 'a' <= u as char <= 'z' || '0' <= u as char <= '9'
            || u as char in "'(),-./:? \n\r\t"
    ensures IsDirect(u, true) <==> ' ' <= u as char <= '~'
  {
  }

  lemma DirectIsAscii(u: unit, mail: bool)
    requires IsDirect(u, mail)
    ensures u < 0x80
  {
  }

  /** The maximal run at the front that has to be shifted. */
  function ShiftedLength(text: seq<unit>, mail: bool): nat {
    if text == [] || IsDirect(text[0], mail) then 0 else 1 + ShiftedLength(text[1..], mail)
  }

  lemma {:induction false} ShiftedLengthFits(text: seq<unit>, mail: bool)
    ensures ShiftedLength(text, mail) <= |text|
    ensures text != [] && !IsDirect(text[0], mail) ==> ShiftedLength(text, mail) > 0
  {
    hide IsDirect;
    if text != [] { ShiftedLengthFits(text[1..], mail); }
  }

  /** One matched chunk: the shift byte, its base64, and `-`; a lone shift byte has none. */
  function EncodeChunk(chunk: seq<unit>, mail: bool): seq<bv8> {
    [Shift(mail)] + (if chunk == [Shift(mail) as bv16] then [] else RunText(Bytes(chunk, true), mail)) + [DASH]
  }

  /** How many units the next chunk takes: `&` is a chunk of its own in the IMAP variant,
      everything else that is not direct is taken in maximal runs. */
  function ChunkLength(text: seq<unit>, mail: bool): nat
    requires text != []
  {
    if mail && text[0] == AMPERSAND as bv16 then 1 else ShiftedLength(text, mail)
  }

  lemma ChunkLengthFits(text: seq<unit>, mail: bool)
    requires text != []
    ensures ChunkLength(text, mail) <= |text|
  {
    ShiftedLengthFits(text, mail);
  }

  /** `utf7` and `utf7imap`. */
  function EncodeUnits(text: seq<unit>, mail: bool): seq<bv8>
    decreases |text|
  {
    if text == [] then []
    else
      ChunkLengthFits(text, mail);
      var n := ChunkLength(text, mail);
      if n == 0 then [(text[0] & 0xFF) as bv8] + EncodeUnits(text[1..], mail)
      else EncodeChunk(text[..n], mail) + EncodeUnits(text[n..], mail)
  }

  // ----- the round trip -----

  /** The text without the byte-order mark that opens a base64 run. */
  function WithoutRunBoms(text: seq<unit>, mail: bool): seq<unit>
    decreases |text|
  {
    if text == [] then []
    else
      ChunkLengthFits(text, mail);
      var n := ChunkLength(text, mail);
      if n == 0 then [text[0]] + WithoutRunBoms(text[1..], mail)
      else DropBom(text[..n]) + WithoutRunBoms(text[n..], mail)
  }

  /** Some run the encoder shifts begins with U+FEFF. */
  predicate HasRunBom(text: seq<unit>, mail: bool)
    decreases |text|
  {
    text != [] &&
    (ChunkLengthFits(text, mail);
     var n := ChunkLength(text, mail);
     if n == 0 then HasRunBom(text[1..], mail) else text[0] == BOM || HasRunBom(text[n..], mail))
  }

  /** The same without the encoder: a mark at the front, or right after a direct unit. */
  ghost predicate OpensWithBom(text: seq<unit>, mail: bool, i: nat) {
    i < |text| && text[i] == BOM && (i == 0 || IsDirect(text[i - 1], mail))
  }

  ghost predicate SomeBomOpens(text: seq<unit>, mail: bool) {
    exists i :: OpensWithBom(text, mail, i)
  }

  lemma {:induction false} ShiftedRun(text: seq<unit>, mail: bool)
    ensures ShiftedLength(text, mail) <= |text|
    ensures forall i :: 0 <= i < ShiftedLength(text, mail) ==> !IsDirect(text[i], mail)
    ensures ShiftedLength(text, mail) < |text| ==> IsDirect(text[ShiftedLength(text, mail)], mail)
  {
    hide IsDirect;
    if text != [] { ShiftedRun(text[1..], mail); }
  }

  /** A chunk is a direct unit or is not broken by one; a mark after it opens the next chunk. */
  lemma ChunkBreaks(text: seq<unit>, mail: bool)
    requires text != []
    ensures var n := ChunkLength(text, mail);
            var next := if n == 0 then 1 else n;
            && next <= |text|
            && (n == 0 ==> IsDirect(text[0], mail))
            && (forall i :: 0 <= i < next - 1 ==> !IsDirect(text[i], mail))
            && (next < |text| && text[next] == BOM ==> IsDirect(text[next - 1], mail))
  {
    ShiftedRun(text, mail);
  }

  lemma OpensLater(text: seq<unit>, mail: bool, next: nat, i: nat)
    requires 0 < next <= |text| && (next < |text| && text[next] == BOM ==> IsDirect(text[next - 1], mail))
    ensures OpensWithBom(text[next..], mail, i) <==> OpensWithBom(text, mail, next + i)
  {
    hide IsDirect;
  }

  /** With no direct unit before the last of the first `next`, a mark opens a run at the front
      or not before `next`. */
  lemma BomOpensSplit(text: seq<unit>, mail: bool, next: nat)
    requires 0 < next <= |text| && (next < |text| && text[next] == BOM ==> IsDirect(text[next - 1], mail))
    requires forall i :: 0 <= i < next - 1 ==> !IsDirect(text[i], mail)
    ensures SomeBomOpens(text, mail) <==> text[0] == BOM || SomeBomOpens(text[next..], mail)
  {
    hide IsDirect;
    if SomeBomOpens(text, mail) {
      var i: nat :| OpensWithBom(text, mail, i);
      if i >= next {
        OpensLater(text, mail, next, i - next);
      }
    }
    if SomeBomOpens(text[next..], mail) {
      var i: nat :| OpensWithBom(text[next..], mail, i);
      OpensLater(text, mail, next, i);
    }
    if text[0] == BOM { assert OpensWithBom(text, mail, 0); }
  }

  lemma RunBomStep(text: seq<unit>, mail: bool)
    requires text != []
    ensures ChunkLength(text, mail) <= |text|
    ensures var n := ChunkLength(text, mail);
            HasRunBom(text, mail) <==> text[0] == BOM || HasRunBom(text[(if n == 0 then 1 else n)..], mail)
  {
    hide IsDirect;
    ChunkLengthFits(text, mail);
    if text[0] == BOM { BomIsShifted(text, mail); }
    hide ChunkLength, ShiftedLength;
  }

  /** When the round trip fails, in terms of the text alone. */
  lemma {:induction false} RunBomAt(text: seq<unit>, mail: bool)
    ensures HasRunBom(text, mail) <==> SomeBomOpens(text, mail)
    decreases |text|
  {
    if text != [] {
      hide HasRunBom, SomeBomOpens, IsDirect, ChunkLength;
      ChunkBreaks(text, mail);
      RunBomStep(text, mail);
      var n := ChunkLength(text, mail);
      var next := if n == 0 then 1 else n;
      BomOpensSplit(text, mail, next);
      RunBomAt(text[next..], mail);
    }
  }

  lemma BomIsShifted(text: seq<unit>, mail: bool)
    requires text != [] && text[0] == BOM
    ensures ChunkLength(text, mail) > 0
  {
    ShiftedLengthFits(text, mail);
  }

  lemma DirectUnit(u: unit, mail: bool)
    requires IsDirect(u, mail) && !(mail && u == AMPERSAND as bv16)
    ensures (u & 0xFF) as bv8 != Shift(mail) && Direct((u & 0xFF) as bv8) == u
  {
  }

  lemma ShiftIsAscii(mail: bool)
    ensures Shift(mail) as bv16 != BOM && !InAlphabet(DASH, mail)
    ensures !mail ==> !IsDirect(Shift(mail) as bv16, mail)
  {
  }

  lemma {:induction false} RunLengthOf(run: seq<bv8>, rest: seq<bv8>, mail: bool)
    requires forall i :: 0 <= i < |run| ==> InAlphabet(run[i], mail)
    requires rest == [] || !InAlphabet(rest[0], mail)
    ensures RunLength(run + rest, mail) == |run|
  {
    hide InAlphabet;
    if run == [] {
      assert run + rest == rest;
    } else {
      assert (run + rest)[1..] == run[1..] + rest;
      RunLengthOf(run[1..], rest, mail);
    }
  }

  /** A chunk decodes to itself less its byte-order mark, wherever it stands. */
  lemma ChunkDecodes(chunk: seq<unit>, rest: seq<bv8>, mail: bool)
    requires chunk != []
    ensures DecodeUnits(EncodeChunk(chunk, mail) + rest, Shift(mail), mail) ==
            DropBom(chunk) + DecodeUnits(rest, Shift(mail), mail)
  {
    hide InAlphabet, Lenient, Units, Bytes, RunText;
    var run := if chunk == [Shift(mail) as bv16] then [] else RunText(Bytes(chunk, true), mail);
    var body := EncodeChunk(chunk, mail) + rest;
    assert body[1..] == run + ([DASH] + rest);
    UnitsOfBytes(chunk, true);
    RunTextDecodes(Bytes(chunk, true), mail);
    ShiftIsAscii(mail);
    RunLengthOf(run, [DASH] + rest, mail);
    assert body[1..][Consumed(body[1..], |run|)..] == rest;
    assert body[1..][..|run|] == run;
  }

  /** Decoding the encoded text gives it back less the marks that open runs. */
  lemma {:induction false} DecodeEncoded(text: seq<unit>, mail: bool)
    ensures DecodeUnits(EncodeUnits(text, mail), Shift(mail), mail) == WithoutRunBoms(text, mail)
    decreases |text|
  {
    hide EncodeChunk, IsDirect, Shift, Direct, DropBom;
    if text != [] {
      ChunkLengthFits(text, mail);
      var n := ChunkLength(text, mail);
      if n == 0 {
        DecodeEncoded(text[1..], mail);
        NotShifted(text, mail);
        DirectUnit(text[0], mail);
        assert EncodeUnits(text, mail)[1..] == EncodeUnits(text[1..], mail);
      } else {
        DecodeEncoded(text[n..], mail);
        ChunkDecodes(text[..n], EncodeUnits(text[n..], mail), mail);
      }
    }
  }

  lemma NotShifted(text: seq<unit>, mail: bool)
    requires text != [] && ChunkLength(text, mail) == 0
    ensures IsDirect(text[0], mail) && !(mail && text[0] == AMPERSAND as bv16)
  {
    ShiftedLengthFits(text, mail);
  }

  /** What is left is the whole text exactly when no run opens with a mark. */
  lemma {:induction false} WithoutRunBomsSame(text: seq<unit>, mail: bool)
    ensures |WithoutRunBoms(text, mail)| <= |text|
    ensures HasRunBom(text, mail) ==> |WithoutRunBoms(text, mail)| < |text|
    ensures !HasRunBom(text, mail) ==> WithoutRunBoms(text, mail) == text
    decreases |text|
  {
    hide IsDirect, ShiftedLength;
    if text != [] {
      ChunkLengthFits(text, mail);
      var n := ChunkLength(text, mail);
      hide ChunkLength;
      if n == 0 {
        WithoutRunBomsSame(text[1..], mail);
        assert text == [text[0]] + text[1..];
      } else {
        WithoutRunBomsSame(text[n..], mail);
        assert text == text[..n] + text[n..];
      }
    }
  }

  /** The round trip at the level of units: exact, whatever the units. */
  lemma UnitsRoundTrip(text: seq<unit>, mail: bool)
    ensures DecodeUnits(EncodeUnits(text, mail), Shift(mail), mail) == text <==> !HasRunBom(text, mail)
  {
    DecodeEncoded(text, mail);
    WithoutRunBomsSame(text, mail);
  }

  /** The round trip of a text: the decoder gives it back if and only if no run of its
      encoding begins with U+FEFF. */
  lemma TextRoundTrip(text: seq<bv32>, mail: bool)
    requires IsText(text)
    ensures Decode(DecodeUnits(EncodeUnits(Encode(text), mail), Shift(mail), mail)) == text
            <==> !HasRunBom(Encode(text), mail)
  {
    var units := Encode(text);
    UnitsRoundTrip(units, mail);
    DecodeEncoded(units, mail);
    WithoutRunBomsSame(units, mail);
    DecodeEncode(text);
    DecodeKeepsLength(WithoutRunBoms(units, mail));
  }

  /** U+FEFF alone is a text that does not come back. */
  lemma BomIsLost(mail: bool)
    ensures IsText([BOM as bv32])
    ensures Decode(DecodeUnits(EncodeUnits(Encode([BOM as bv32]), mail), Shift(mail), mail)) != [BOM as bv32]
  {
    var text: seq<bv32> := [BOM as bv32];
    assert Encode(text) == [BOM];
    RunBomAt([BOM], mail);
    assert OpensWithBom([BOM], mail, 0);
    TextRoundTrip(text, mail);
  }

  /** Splitting an unterminated run into its whole groups of eight and the rest changes the
      result exactly when there are whole groups and the rest opens with a mark. */
  lemma SplitRun(chars: seq<bv8>, mail: bool)
    ensures var whole := |chars| / 8 * 8;
            var rest := Units(Lenient(chars[whole..], mail), true);
            DecodeRun(chars[..whole], mail) + DecodeRun(chars[whole..], mail) == DecodeRun(chars, mail)
            <==> !(whole > 0 && rest != [] && rest[0] == BOM)
  {
    hide Lenient, Units, DropBom;
    var whole := |chars| / 8 * 8;
    var a, b := chars[..whole], chars[whole..];
    assert chars == a + b;
    var ua, ub := Units(Lenient(a, mail), true), Units(Lenient(b, mail), true);
    WholeGroups(a, b, mail);
    DropBomOfSplit(ua, ub);
  }

  // ----- what a body stands for -----

  /** The units a run of base64 characters holds, its byte-order mark included. */
  function UnitsOfRun(chars: seq<bv8>, mail: bool): seq<unit> {
    Units(Lenient(chars, mail), true)
  }

  lemma RunStep(chars: seq<bv8>, rest: seq<bv8>, shift: bv8, mail: bool)
    requires forall i :: 0 <= i < |chars| ==> InAlphabet(chars[i], mail)
    requires rest == [] || !InAlphabet(rest[0], mail)
    ensures DecodeUnits([shift] + (chars + rest), shift, mail) ==
            Shifted(chars + rest, |chars|, shift, mail)
              + DecodeUnits(if rest != [] && rest[0] == DASH then rest[1..] else rest, shift, mail)
  {
    hide InAlphabet, Shifted, RunLength, Consumed;
    var all := chars + rest;
    RunLengthOf(chars, rest, mail);
    ConsumedMeans(chars, rest);
    assert ([shift] + all)[1..] == all;
    assert all[Consumed(all, |chars|)..] == if rest != [] && rest[0] == DASH then rest[1..] else rest;
  }

  /** What a shift byte, its run and what follows decode to, by what ends the run: the end of
      the body, a `-`, or another byte. With the next lemma this settles every body. */
  lemma RunMeans(chars: seq<bv8>, rest: seq<bv8>, mail: bool)
    requires forall i :: 0 <= i < |chars| ==> InAlphabet(chars[i], mail)
    requires rest == [] || !InAlphabet(rest[0], mail)
    ensures DecodeUnits([Shift(mail)] + (chars + rest), Shift(mail), mail) ==
            if rest == [] then
              DropBom(UnitsOfRun(chars[..|chars| / 8 * 8], mail)) + DropBom(UnitsOfRun(chars[|chars| / 8 * 8..], mail))
            else if rest[0] != DASH then DropBom(UnitsOfRun(chars, mail)) + DecodeUnits(rest, Shift(mail), mail)
            else if chars == [] then [Shift(mail) as bv16] + DecodeUnits(rest[1..], Shift(mail), mail)
            else DropBom(UnitsOfRun(chars, mail)) + DecodeUnits(rest[1..], Shift(mail), mail)
  {
    hide *;
    RunStep(chars, rest, Shift(mail), mail);
    ShiftedRunMeans(chars, rest, mail);
    EmptyBody(Shift(mail), mail);
  }

  lemma EmptyBody(shift: bv8, mail: bool)
    ensures DecodeUnits([], shift, mail) == []
  {
  }

  lemma ConsumedMeans(chars: seq<bv8>, rest: seq<bv8>)
    ensures Consumed(chars + rest, |chars|) == |chars| + if rest != [] && rest[0] == DASH then 1 else 0
  {
  }

  lemma ShiftedRunMeans(chars: seq<bv8>, rest: seq<bv8>, mail: bool)
    ensures Shifted(chars + rest, |chars|, Shift(mail), mail) ==
            if rest == [] then
              DropBom(UnitsOfRun(chars[..|chars| / 8 * 8], mail)) + DropBom(UnitsOfRun(chars[|chars| / 8 * 8..], mail))
            else if chars == [] && rest[0] == DASH then [Shift(mail) as bv16]
            else DropBom(UnitsOfRun(chars, mail))
  {
    hide Lenient, Units, DropBom, Shift;
    var all := chars + rest;
    assert all[..|chars|] == chars;
    if rest == [] { assert all == chars; }
  }

  /** Outside the runs a byte of ASCII is itself, and any other is U+FFFD. */
  lemma DirectMeans(byte: bv8, rest: seq<bv8>, mail: bool)
    requires byte != Shift(mail)
    ensures DecodeUnits([byte] + rest, Shift(mail), mail) ==
            [if byte < 0x80 then byte as bv16 else 0xFFFD] + DecodeUnits(rest, Shift(mail), mail)
  {
    hide Shifted, RunLength;
    assert ([byte] + rest)[1..] == rest;
  }

  lemma EncodedRun(chunk: seq<unit>, mail: bool) returns (chars: seq<bv8>)
    ensures chars == RunText(Bytes(chunk, true), mail)
    ensures forall i :: 0 <= i < |chars| ==> InAlphabet(chars[i], mail)
    ensures UnitsOfRun(chars, mail) == chunk && |Lenient(chars, mail)| == 2 * |chunk|
  {
    hide InAlphabet, Lenient, Units, Bytes, RunText;
    UnitsOfBytes(chunk, true);
    RunTextDecodes(Bytes(chunk, true), mail);
    chars := RunText(Bytes(chunk, true), mail);
  }

  /** A run that the body ends without closing: its whole groups of eight characters are three
      units each, and a mark is dropped at the front of them and at the front of the rest. */
  lemma UnterminatedRun(chunk: seq<unit>, mail: bool)
    ensures var cut := |chunk| / 3 * 3;
            && DecodeUnits([Shift(mail)] + RunText(Bytes(chunk, true), mail), Shift(mail), mail) ==
               DropBom(chunk[..cut]) + DropBom(chunk[cut..])
            && (DecodeUnits([Shift(mail)] + RunText(Bytes(chunk, true), mail), Shift(mail), mail) == DropBom(chunk)
                <==> cut == 0 || cut == |chunk| || chunk[cut] != BOM)
  {
    hide *;
    var chars := EncodedRun(chunk, mail);
    RunMeans(chars, [], mail);
    assert chars + [] == chars;
    RunGroups(chunk, chars, mail);
    var cut := WholeUnits(|chunk|);
    DropBomAtCut(chunk, cut);
  }

  lemma SampleChars(mail: bool)
    ensures RunText(Bytes([0xE9], true), mail) == [65, 79, 107]
  {
    hide RunText;
    var units: seq<unit> := [0xE9];
    assert units[1..] == [] && Bytes(units, true) == [0, 0xE9];
    RunTextOfTwo([0, 0xE9], mail);
    assert Symbol1(0) == 65 && Symbol2(0, 0xE9) == 79 && Symbol3(0xE9, 0) == 107;
  }

  lemma SampleEnd(mail: bool)
    ensures Shift(mail) == (if mail then 38 else 43) && 33 != DASH && 33 != Shift(mail) && !InAlphabet(33, mail)
    ensures DropBom([0xE9]) == [0xE9] && DropBom([0xE9][..0]) + DropBom([0xE9][0..]) == [0xE9]
  {
    assert [0xE9 as unit][0..] == [0xE9];
  }

  /** U+00E9 is `AOk` in either variant, closed by the end of the body or by another byte. */
  lemma SampleRun(mail: bool)
    ensures DecodeUnits([if mail then 38 else 43, 65, 79, 107], if mail then 38 else 43, mail) == [0xE9]
    ensures DecodeUnits([if mail then 38 else 43, 65, 79, 107, 33], if mail then 38 else 43, mail) == [0xE9, 0x21]
  {
    hide *;
    SampleChars(mail);
    SampleEnd(mail);
    UnterminatedRun([0xE9], mail);
    RunClosedByAnother([0xE9], [33], mail);
    DirectMeans(33, [], mail);
    EmptyBody(Shift(mail), mail);
    var shift: bv8 := if mail then 38 else 43;
    assert [shift] + [65, 79, 107] == [shift, 65, 79, 107];
    assert [shift] + ([65, 79, 107] + [33]) == [shift, 65, 79, 107, 33];
    assert [33] + [] == [33 as bv8];
  }

  lemma WholeUnits(n: nat) returns (cut: nat)
    ensures cut == n / 3 * 3 <= n
  {
    cut := n / 3 * 3;
  }

  lemma DropBomAtCut(chunk: seq<unit>, cut: nat)
    requires cut <= |chunk|
    ensures DropBom(chunk[..cut]) + DropBom(chunk[cut..]) == DropBom(chunk)
            <==> cut == 0 || cut == |chunk| || chunk[cut] != BOM
  {
    hide DropBom;
    DropBomOfSplit(chunk[..cut], chunk[cut..]);
    assert chunk[..cut] + chunk[cut..] == chunk;
  }

  /** A run closed by a byte that is neither base64 nor `-`: the byte is decoded for itself. */
  lemma RunClosedByAnother(chunk: seq<unit>, rest: seq<bv8>, mail: bool)
    requires rest != [] && rest[0] != DASH && !InAlphabet(rest[0], mail)
    ensures DecodeUnits([Shift(mail)] + (RunText(Bytes(chunk, true), mail) + rest), Shift(mail), mail) ==
            DropBom(chunk) + DecodeUnits(rest, Shift(mail), mail)
  {
    hide *;
    var chars := EncodedRun(chunk, mail);
    RunMeans(chars, rest, mail);
  }

  /** The whole groups of a run's text hold the whole groups of its units. */
  lemma RunGroups(chunk: seq<unit>, chars: seq<bv8>, mail: bool)
    requires UnitsOfRun(chars, mail) == chunk && |Lenient(chars, mail)| == 2 * |chunk|
    ensures var whole, cut := |chars| / 8 * 8, |chunk| / 3 * 3;
            UnitsOfRun(chars[..whole], mail) == chunk[..cut] && UnitsOfRun(chars[whole..], mail) == chunk[cut..]
  {
    hide Lenient, Units;
    var groups, left := |chars| / 8, |chars| % 8;
    var a, b := chars[..8 * groups], chars[8 * groups..];
    assert chars == a + b;
    LenientLength(chars, mail);
    ThreeInEight(|chars|, |chunk|);
    WholeGroups(a, b, mail);
    assert |UnitsOfRun(a, mail)| == 3 * groups;
    assert chunk == UnitsOfRun(a, mail) + UnitsOfRun(b, mail);
    assert chunk[..3 * groups] == UnitsOfRun(a, mail) && chunk[3 * groups..] == UnitsOfRun(b, mail);
  }

  lemma ThreeInEight(chars: nat, units: nat)
    requires 3 * chars / 4 == 2 * units
    ensures chars / 8 == units / 3
  {
  }

  /** Groups of eight characters are whole units: six bytes, three units. */
  lemma WholeGroups(a: seq<bv8>, b: seq<bv8>, mail: bool)
    requires |a| % 8 == 0
    ensures Units(Lenient(a + b, mail), true) == Units(Lenient(a, mail), true) + Units(Lenient(b, mail), true)
    ensures a != [] <==> Units(Lenient(a, mail), true) != []
    ensures |Units(Lenient(a, mail), true)| == 3 * (|a| / 8)
  {
    hide *;
    var k := |a| / 8;
    Quarter(|a|, 2 * k);
    LenientDistributes(a, b, mail);
    LenientLength(a, mail);
    Quarter(3 * |a|, 6 * k);
    Half(|Lenient(a, mail)|, 3 * k);
    UnitsAppend(Lenient(a, mail), Lenient(b, mail), true);
  }

  lemma Quarter(n: nat, m: nat)
    requires n == 4 * m
    ensures n / 4 == m && n % 4 == 0
  {
  }

  lemma Half(n: nat, m: nat)
    requires n == 2 * m
    ensures n / 2 == m && n % 2 == 0
  {
  }

  lemma DropBomOfSplit(ua: seq<unit>, ub: seq<unit>)
    ensures DropBom(ua) + DropBom(ub) == DropBom(ua + ub) <==> !(ua != [] && ub != [] && ub[0] == BOM)
  {
    if ua == [] {
      assert ua + ub == ub;
      assert DropBom(ua) + DropBom(ub) == DropBom(ub);
    } else {
      assert DropBom(ua + ub) == DropBom(ua) + ub;
      if ub != [] && ub[0] == BOM {
        assert |DropBom(ua) + DropBom(ub)| < |DropBom(ua + ub)|;
      }
    }
  }
}
