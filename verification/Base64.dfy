/** Base64 as the body decoders read it (`base64_lenient`) and as Node's
    `Buffer.toString('base64')` writes it, section 4 of RFC 4648. */
module Base64 {
  type byte = bv8
  // `mail` is the `imap` flag of the decoders: the alphabet has `,` for `/`.

  const PAD: byte := 61
  const SLASH: byte := 47

  /** The alphabet: `A`-`Z`, `a`-`z`, `0`-`9`, `+`, `/`. */
  function Symbol(v: bv32): byte
    requires v < 64
  {
    if v < 26 then (v + 65) as byte
    else if v < 52 then (v + 71) as byte
    else if v < 62 then (v - 4) as byte
    else if v == 62 then 43
    else 47
  }

  function Sextet(c: byte, mail: bool): bv32 {
    if 65 <= c <= 90 then (c - 65) as bv32
    else if 97 <= c <= 122 then (c - 97) as bv32 + 26
    else if 48 <= c <= 57 then (c - 48) as bv32 + 52
    else if c == 43 then 62
    else if c == 44 && mail then 63
    else 63
  }

  /** `,` for `/`, as the IMAP variant writes it. */
  function Comma(c: byte, mail: bool): byte {
    if mail && c == 47 then 44 else c
  }

  lemma SextetOfSymbol(v: bv32, mail: bool)
    requires v < 64
    ensures Sextet(Comma(Symbol(v), mail), mail) == v
    ensures Symbol(v) != PAD
  {
  }

  /** The alphabet of RFC 4648: capitals, small letters and digits in their order, `+`, `/`. */
  lemma AlphabetInOrder(v: bv32)
    requires v < 64
    ensures v < 61 && v != 25 && v != 51 ==> Symbol(v + 1) == Symbol(v) + 1
    ensures Symbol(0) as char == 'A' && Symbol(25) as char == 'Z'
    ensures Symbol(26) as char == 'a' && Symbol(51) as char == 'z'
    ensures Symbol(52) as char == '0' && Symbol(61) as char == '9'
    ensures Symbol(62) as char == '+' && Symbol(63) as char == '/'
  {
  }

  /** A run goes on over exactly the 64 symbols, and over `,` in the IMAP variant, where it
      stands for `/`; each character is worth its place in the alphabet. */
  lemma InAlphabetMeans(c: byte, mail: bool)
    ensures InAlphabet(c, mail) <==> (mail && c as char == ',') || exists v: bv32 :: v < 64 && Symbol(v) == c
    ensures InAlphabet(c, mail) ==>
              Sextet(c, mail) < 64 && Symbol(Sextet(c, mail)) as char == if c as char == ',' then '/' else c as char
  {
    var v := Sextet(c, mail);
  }

  // ----- decoding -----

  /** `value << (18 - 6 * index)`. */
  function Place(v: bv32, index: nat): bv32
    requires index < 4
  {
    if index == 0 then v << 18 else if index == 1 then v << 12 else if index == 2 then v << 6 else v
  }

  function Accumulate(quad: seq<byte>, mail: bool): bv32
    requires |quad| <= 4
  {
    if quad == [] then 0
    else
      var n := |quad| - 1;
      Accumulate(quad[..n], mail) | Place(Sextet(quad[n], mail), n)
  }

  /** The low three bytes, most significant first. */
  function LowBytes(acc: bv32): (r: seq<byte>)
    ensures |r| == 3
  {
    [((acc >> 16) & 0xFF) as byte, ((acc >> 8) & 0xFF) as byte, (acc & 0xFF) as byte]
  }

  /** How many bytes a group of so many characters holds. */
  function Take(n: nat): nat {
    if n == 4 then 3 else if n == 3 then 2 else if n == 2 then 1 else 0
  }

  function DecodeQuad(quad: seq<byte>, mail: bool): seq<byte>
    requires |quad| <= 4
  {
    LowBytes(Accumulate(quad, mail))[..Take(|quad|)]
  }

  /** Group by group; the last group may be short. */
  function Lenient(chars: seq<byte>, mail: bool): seq<byte> {
    if chars == [] then []
    else if |chars| <= 4 then DecodeQuad(chars, mail)
    else DecodeQuad(chars[..4], mail) + Lenient(chars[4..], mail)
  }

  /** The inner loop of `base64_lenient`: one group, ored together. */
  method AccumulateGroup(quad: seq<byte>, mail: bool) returns (acc: bv32)
    requires |quad| <= 4
    ensures acc == Accumulate(quad, mail)
  {
    hide Sextet, Place;
    acc := 0;
    for index := 0 to |quad|
      invariant acc == Accumulate(quad[..index], mail)
    {
      assert quad[..index + 1][..index] == quad[..index];
      acc := acc | Place(Sextet(quad[index], mail), index);
    }
    assert quad[..|quad|] == quad;
  }

  /** The group at `at`: four characters, or what is left. */
  function GroupAt(chars: seq<byte>, at: nat): (r: seq<byte>)
    requires at < |chars|
    ensures 0 < |r| <= 4 && at + |r| <= |chars|
  {
    if at + 4 <= |chars| then chars[at..at + 4] else chars[at..]
  }

  lemma LenientStep(chars: seq<byte>, at: nat, mail: bool)
    requires at < |chars|
    ensures var quad := GroupAt(chars, at);
            Lenient(chars[at..], mail) == DecodeQuad(quad, mail) + Lenient(chars[at + |quad|..], mail)
  {
    hide DecodeQuad;
    var rest := chars[at..];
    if |rest| > 4 {
      assert rest[..4] == GroupAt(chars, at) && rest[4..] == chars[at + 4..];
    } else {
      assert rest == GroupAt(chars, at) && chars[at + |rest|..] == [];
    }
  }

  method DecodeLenient(chars: seq<byte>, mail: bool) returns (out: seq<byte>)
    ensures out == Lenient(chars, mail)
  {
    hide Accumulate, LowBytes, Lenient, GroupAt;
    out := [];
    var at := 0;
    assert chars[0..] == chars;
    while at < |chars|
      invariant at <= |chars| && out + Lenient(chars[at..], mail) == Lenient(chars, mail)
    {
      LenientStep(chars, at, mail);
      var quad := GroupAt(chars, at);
      var acc := AccumulateGroup(quad, mail);
      out := out + LowBytes(acc)[..Take(|quad|)];
      at := at + |quad|;
    }
    LenientNothing(chars, mail);
    assert out + [] == out;
  }

  lemma LenientNothing(chars: seq<byte>, mail: bool)
    ensures Lenient(chars[|chars|..], mail) == []
  {
  }

  /** The output is always floor(3n / 4) bytes. */
  lemma {:induction false} LenientLength(chars: seq<byte>, mail: bool)
    ensures |Lenient(chars, mail)| == 3 * |chars| / 4
  {
    if |chars| > 4 { LenientLength(chars[4..], mail); }
  }

  /** Whole groups decode on their own. */
  lemma {:induction false} LenientDistributes(a: seq<byte>, b: seq<byte>, mail: bool)
    requires |a| % 4 == 0
    ensures Lenient(a + b, mail) == Lenient(a, mail) + Lenient(b, mail)
  {
    hide DecodeQuad;
    if a == [] {
      assert a + b == b;
    } else if b == [] {
      assert a + b == a;
    } else {
      LenientDistributes(a[4..], b, mail);
      assert (a + b)[..4] == a[..4] && (a + b)[4..] == a[4..] + b;
      if |a| == 4 { assert a[..4] == a && a[4..] == []; }
    }
  }

  /** Four digits to the base 64. */
  ghost function Number64(a: bv32, b: bv32, c: bv32, d: bv32): bv32 {
    a * 0x40000 + b * 0x1000 + c * 0x40 + d
  }

  /** Three digits to the base 256. */
  ghost function Number256(bytes: seq<byte>): bv32
    requires |bytes| == 3
  {
    (bytes[0] as bv32) * 0x1_0000 + (bytes[1] as bv32) * 0x100 + (bytes[2] as bv32)
  }

  lemma PlacesAdd(a: bv32, b: bv32, c: bv32, d: bv32)
    requires a < 64 && b < 64 && c < 64 && d < 64
    ensures (a << 18) | (b << 12) | (c << 6) | d == Number64(a, b, c, d) < 0x100_0000
  {
  }

  lemma LowBytesMean(acc: bv32)
    requires acc < 0x100_0000
    ensures Number256(LowBytes(acc)) == acc
  {
  }

  lemma WholeQuad(quad: seq<byte>, mail: bool)
    requires |quad| == 4
    ensures DecodeQuad(quad, mail) == LowBytes(Accumulate(quad, mail))
  {
    hide Accumulate, LowBytes;
  }

  /** A whole group is one number, in both bases. */
  lemma QuadMeans(quad: seq<byte>, mail: bool)
    requires |quad| == 4 && forall i :: 0 <= i < 4 ==> InAlphabet(quad[i], mail)
    ensures |DecodeQuad(quad, mail)| == 3
    ensures Number256(DecodeQuad(quad, mail)) ==
            Number64(Sextet(quad[0], mail), Sextet(quad[1], mail), Sextet(quad[2], mail), Sextet(quad[3], mail))
  {
    hide *;
    forall i | 0 <= i < 4 ensures Sextet(quad[i], mail) < 64 { InAlphabetMeans(quad[i], mail); }
    WholeQuad(quad, mail);
    AccumulateFour(quad, mail);
    PlacesAdd(Sextet(quad[0], mail), Sextet(quad[1], mail), Sextet(quad[2], mail), Sextet(quad[3], mail));
    LowBytesMean(Accumulate(quad, mail));
  }

  lemma ZeroIsA(mail: bool)
    ensures Sextet(65, mail) == 0
  {
  }

  // ----- encoding -----

  function Symbol1(a: byte): byte {
    Symbol(((a as bv32) >> 2) & 63)
  }

  function Symbol2(a: byte, b: byte): byte {
    Symbol((((a as bv32) << 4) | ((b as bv32) >> 4)) & 63)
  }

  function Symbol3(b: byte, c: byte): byte {
    Symbol((((b as bv32) << 2) | ((c as bv32) >> 6)) & 63)
  }

  function Symbol4(c: byte): byte {
    Symbol((c as bv32) & 63)
  }

  /** Groups of three bytes; a short last group is padded with `=`. */
  function ToBase64(bytes: seq<byte>): seq<byte> {
    if bytes == [] then []
    else if |bytes| == 1 then [Symbol1(bytes[0]), Symbol2(bytes[0], 0), PAD, PAD]
    else if |bytes| == 2 then [Symbol1(bytes[0]), Symbol2(bytes[0], bytes[1]), Symbol3(bytes[1], 0), PAD]
    else [Symbol1(bytes[0]), Symbol2(bytes[0], bytes[1]), Symbol3(bytes[1], bytes[2]), Symbol4(bytes[2])]
         + ToBase64(bytes[3..])
  }

  /** Removes the trailing `=`. */
  function Unpad(text: seq<byte>): seq<byte> {
    if text != [] && text[|text| - 1] == PAD then Unpad(text[..|text| - 1]) else text
  }

  function CommaAll(text: seq<byte>, mail: bool): seq<byte> {
    seq(|text|, i requires 0 <= i < |text| => Comma(text[i], mail))
  }

  /** What the encoders put in a shifted run. */
  function RunText(bytes: seq<byte>, mail: bool): seq<byte> {
    Unpad(CommaAll(ToBase64(bytes), mail))
  }

  predicate InAlphabet(c: byte, mail: bool) {
    48 <= c <= 57 || 65 <= c <= 90 || 97 <= c <= 122 || c == 47 || c == 43 || (mail && c == 44)
  }

  /** One full group, as it appears in a run. */
  function FullGroup(a: byte, b: byte, c: byte, mail: bool): seq<byte> {
    [Comma(Symbol1(a), mail), Comma(Symbol2(a, b), mail), Comma(Symbol3(b, c), mail), Comma(Symbol4(c), mail)]
  }

  lemma GroupOfThree(a: byte, b: byte, c: byte, mail: bool)
    ensures DecodeQuad(FullGroup(a, b, c, mail), mail) == [a, b, c]
  {
    var quad := FullGroup(a, b, c, mail);
    SextetOfSymbol(((a as bv32) >> 2) & 63, mail);
    SextetOfSymbol((((a as bv32) << 4) | ((b as bv32) >> 4)) & 63, mail);
    SextetOfSymbol((((b as bv32) << 2) | ((c as bv32) >> 6)) & 63, mail);
    SextetOfSymbol((c as bv32) & 63, mail);
    AccumulateFour(quad, mail);
    Regroup(a, b, c);
  }

  lemma AccumulateFour(quad: seq<byte>, mail: bool)
    requires |quad| == 4
    ensures Accumulate(quad, mail) ==
            (Sextet(quad[0], mail) << 18) | (Sextet(quad[1], mail) << 12)
            | (Sextet(quad[2], mail) << 6) | Sextet(quad[3], mail)
  {
    hide Sextet, Accumulate;
    AccumulateLast(quad, mail, 4);
    AccumulateLast(quad, mail, 3);
    AccumulateLast(quad, mail, 2);
    AccumulateLast(quad, mail, 1);
    AccumulateNothing(mail);
    assert quad[..4] == quad && quad[..0] == [];
    OrZero(Sextet(quad[0], mail) << 18);
  }

  lemma AccumulateNothing(mail: bool)
    ensures Accumulate([], mail) == 0
  {
  }

  lemma OrZero(x: bv32)
    ensures 0 | x == x
  {
  }

  lemma AccumulateLast(quad: seq<byte>, mail: bool, n: nat)
    requires 0 < n <= |quad| <= 4
    ensures Accumulate(quad[..n], mail) == Accumulate(quad[..n - 1], mail) | Place(Sextet(quad[n - 1], mail), n - 1)
  {
    assert quad[..n][..n - 1] == quad[..n - 1];
  }

  lemma Regroup(a: byte, b: byte, c: byte)
    ensures LowBytes(((((a as bv32) >> 2) & 63) << 18) | (((((a as bv32) << 4) | ((b as bv32) >> 4)) & 63) << 12)
                     | (((((b as bv32) << 2) | ((c as bv32) >> 6)) & 63) << 6) | ((c as bv32) & 63)) == [a, b, c]
  {
  }

  /** A group cut short by a zero sextet decodes to the bytes before it. */
  lemma CutGroup(full: seq<byte>, n: nat, mail: bool)
    requires 1 < n <= |full| <= 4 && |full| == n && Sextet(full[n - 1], mail) == 0
    ensures DecodeQuad(full[..n - 1], mail) == LowBytes(Accumulate(full, mail))[..n - 2]
  {
    AccumulateLast(full, mail, n);
    assert full[..n] == full;
    assert Place(0, n - 1) == 0;
    ShortGroup(Accumulate(full[..n - 1], mail), Accumulate(full, mail));
  }

  /** A short last group is the front of what it would be when filled up with zeros (`A`). */
  lemma ShortQuadMeans(full: seq<byte>, mail: bool)
    requires |full| == 4 && full[3] as char == 'A'
    ensures DecodeQuad(full[..3], mail) == DecodeQuad(full, mail)[..2]
    ensures full[2] as char == 'A' ==> DecodeQuad(full[..2], mail) == DecodeQuad(full, mail)[..1]
  {
    hide Sextet, LowBytes, Accumulate;
    ZeroIsA(mail);
    CutGroup(full, 4, mail);
    assert DecodeQuad(full, mail) == LowBytes(Accumulate(full, mail));
    if full[2] as char == 'A' {
      var three := full[..3];
      CutGroup(three, 3, mail);
      assert three[..2] == full[..2];
      assert DecodeQuad(three, mail) == LowBytes(Accumulate(three, mail))[..2];
    }
  }

  lemma GroupOfTwo(a: byte, b: byte, mail: bool)
    ensures DecodeQuad(FullGroup(a, b, 0, mail)[..3], mail) == [a, b]
  {
    var full := FullGroup(a, b, 0, mail);
    GroupOfThree(a, b, 0, mail);
    SextetOfSymbol((0 as bv32) & 63, mail);
    CutGroup(full, 4, mail);
    assert LowBytes(Accumulate(full, mail)) == [a, b, 0] by {
      assert DecodeQuad(full, mail) == LowBytes(Accumulate(full, mail))[..3];
    }
  }

  lemma GroupOfOne(a: byte, mail: bool)
    ensures DecodeQuad(FullGroup(a, 0, 0, mail)[..2], mail) == [a]
  {
    var full := FullGroup(a, 0, 0, mail)[..3];
    GroupOfTwo(a, 0, mail);
    SextetOfSymbol((((0 as bv32) << 2) | ((0 as bv32) >> 6)) & 63, mail);
    CutGroup(full, 3, mail);
    assert full[..2] == FullGroup(a, 0, 0, mail)[..2];
    assert DecodeQuad(full, mail) == LowBytes(Accumulate(full, mail))[..2];
    assert LowBytes(Accumulate(full, mail))[..1] == DecodeQuad(full, mail)[..1];
  }

  /** A zero sextet adds nothing. */
  lemma ShortGroup(short: bv32, long: bv32)
    requires long == short | 0
    ensures LowBytes(short) == LowBytes(long)
  {
  }

  lemma {:induction false} UnpadAppend(a: seq<byte>, b: seq<byte>)
    requires a != [] && a[|a| - 1] != PAD
    ensures Unpad(a + b) == a + Unpad(b)
  {
    if b == [] {
      assert a + b == a;
    } else if b[|b| - 1] == PAD {
      assert (a + b)[..|a + b| - 1] == a + b[..|b| - 1];
      UnpadAppend(a, b[..|b| - 1]);
    }
  }

  lemma SymbolInAlphabet(v: bv32, mail: bool)
    requires v < 64
    ensures InAlphabet(Comma(Symbol(v), mail), mail) && Comma(Symbol(v), mail) != PAD
  {
  }

  lemma SymbolsInAlphabet(a: byte, b: byte, c: byte, mail: bool)
    ensures forall x :: x in FullGroup(a, b, c, mail) ==> InAlphabet(x, mail) && x != PAD
  {
    SymbolInAlphabet(((a as bv32) >> 2) & 63, mail);
    SymbolInAlphabet((((a as bv32) << 4) | ((b as bv32) >> 4)) & 63, mail);
    SymbolInAlphabet((((b as bv32) << 2) | ((c as bv32) >> 6)) & 63, mail);
    SymbolInAlphabet((c as bv32) & 63, mail);
  }

  lemma RunTextOfOne(bytes: seq<byte>, mail: bool)
    requires |bytes| == 1
    ensures RunText(bytes, mail) == FullGroup(bytes[0], 0, 0, mail)[..2]
  {
    hide Symbol, Comma, InAlphabet, Symbol1, Symbol2, Symbol3, Symbol4, Unpad;
    UnpadPads();
    PadKept(mail);
    var g := FullGroup(bytes[0], 0, 0, mail);
    SymbolsInAlphabet(bytes[0], 0, 0, mail);
    assert CommaAll(ToBase64(bytes), mail) == g[..2] + [PAD, PAD];
    assert g[1] in g;
    UnpadAppend(g[..2], [PAD, PAD]);
    assert g[..2] + [] == g[..2];
  }

  lemma RunTextOfTwo(bytes: seq<byte>, mail: bool)
    requires |bytes| == 2
    ensures RunText(bytes, mail) == FullGroup(bytes[0], bytes[1], 0, mail)[..3]
  {
    hide Symbol, Comma, InAlphabet, Symbol1, Symbol2, Symbol3, Symbol4, Unpad;
    UnpadPads();
    PadKept(mail);
    var g := FullGroup(bytes[0], bytes[1], 0, mail);
    SymbolsInAlphabet(bytes[0], bytes[1], 0, mail);
    assert CommaAll(ToBase64(bytes), mail) == g[..3] + [PAD];
    assert g[2] in g;
    UnpadAppend(g[..3], [PAD]);
    assert g[..3] + [] == g[..3];
  }

  lemma RunTextOfMore(bytes: seq<byte>, mail: bool)
    requires |bytes| >= 3
    ensures RunText(bytes, mail) == FullGroup(bytes[0], bytes[1], bytes[2], mail) + RunText(bytes[3..], mail)
  {
    hide Symbol, Comma, InAlphabet, Symbol1, Symbol2, Symbol3, Symbol4, Unpad;
    var g := FullGroup(bytes[0], bytes[1], bytes[2], mail);
    SymbolsInAlphabet(bytes[0], bytes[1], bytes[2], mail);
    assert CommaAll(ToBase64(bytes), mail) == g + CommaAll(ToBase64(bytes[3..]), mail);
    assert g[3] in g;
    UnpadAppend(g, CommaAll(ToBase64(bytes[3..]), mail));
  }

  lemma PadKept(mail: bool)
    ensures Comma(PAD, mail) == PAD
  {
  }

  lemma UnpadPads()
    ensures Unpad([]) == [] && Unpad([PAD]) == [] && Unpad([PAD, PAD]) == []
  {
    assert [PAD, PAD][..1] == [PAD] && [PAD][..0] == [];
  }

  lemma {:induction false} UnpadKeeps(text: seq<byte>)
    ensures forall x :: x in Unpad(text) ==> x in text
  {
    if text != [] { UnpadKeeps(text[..|text| - 1]); }
  }

  /** The IMAP variant never writes `/`. */
  lemma NoSlashInMail(bytes: seq<byte>)
    ensures SLASH !in RunText(bytes, true)
  {
    hide ToBase64;
    UnpadKeeps(CommaAll(ToBase64(bytes), true));
  }

  lemma NoRunText(mail: bool)
    ensures RunText([], mail) == []
  {
  }

  /** Decoding a run gives back its bytes, and a run is written in the alphabet alone. */
  lemma {:induction false} RunTextDecodes(bytes: seq<byte>, mail: bool)
    ensures Lenient(RunText(bytes, mail), mail) == bytes
    ensures forall i :: 0 <= i < |RunText(bytes, mail)| ==> InAlphabet(RunText(bytes, mail)[i], mail)
    ensures bytes != [] ==> RunText(bytes, mail) != []
  {
    hide Symbol, Comma, Sextet, ToBase64, RunText, DecodeQuad, Symbol1, Symbol2, Symbol3, Symbol4, InAlphabet;
    if bytes == [] {
      NoRunText(mail);
    } else if |bytes| == 1 {
      RunTextOfOne(bytes, mail);
      SymbolsInAlphabet(bytes[0], 0, 0, mail);
      GroupOfOne(bytes[0], mail);
    } else if |bytes| == 2 {
      RunTextOfTwo(bytes, mail);
      SymbolsInAlphabet(bytes[0], bytes[1], 0, mail);
      GroupOfTwo(bytes[0], bytes[1], mail);
    } else {
      RunTextOfMore(bytes, mail);
      var g := FullGroup(bytes[0], bytes[1], bytes[2], mail);
      SymbolsInAlphabet(bytes[0], bytes[1], bytes[2], mail);
      GroupOfThree(bytes[0], bytes[1], bytes[2], mail);
      RunTextDecodes(bytes[3..], mail);
      LenientDistributes(g, RunText(bytes[3..], mail), mail);
      assert bytes == bytes[..3] + bytes[3..] && bytes[..3] == [bytes[0], bytes[1], bytes[2]];
    }
  }
}
