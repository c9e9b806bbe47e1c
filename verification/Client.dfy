/** Collecting signatures from several signers until a quorum is reached, and the order in
    which verifiers expect them. */
module Client {
  import opened TextOrder
  import opened Wrappers

  // ----- addresses -----

  /** `char::to_digit(16)`. */
  function HexDigit(c: char): Option<nat> {
    if '0' <= c <= '9' then Some(c as int - '0' as int)
    else if 'a' <= c <= 'f' then Some(c as int - 'a' as int + 10)
    else if 'A' <= c <= 'F' then Some(c as int - 'A' as int + 10)
    else None
  }

  predicate IsHex(c: char) {
    HexDigit(c).Some?
  }

  /** The sixteen digits, in either case, and what they are worth. */
  lemma HexDigitMeans(c: char, v: nat)
    ensures HexDigit(c) == Some(v) <==> v < 16 && (c == "0123456789abcdef"[v] || c == "0123456789ABCDEF"[v])
  {
  }

  lemma HexDigitsAre(c: char)
    ensures IsHex(c) <==> c in "0123456789abcdefABCDEF"
  {
  }

  /** `c` writes `v`, in either case. */
  predicate Writes(c: char, v: int) {
    0 <= v < 16 && (c == "0123456789abcdef"[v] || c == "0123456789ABCDEF"[v])
  }

  /** The digits after `0x` or `0X`, when there are forty of them and all are hexadecimal. */
  function EvmDigits(address: string): Option<string> {
    if |address| == 42 && address[0] == '0' && (address[1] == 'x' || address[1] == 'X')
       && (forall i :: 2 <= i < 42 ==> IsHex(address[i]))
    then Some(address[2..])
    else None
  }

  /** Forty hexadecimal digits after the prefix, and nothing else. */
  lemma EvmDigitsMean(address: string)
    ensures EvmDigits(address).Some? <==>
            && |address| == 42 && (address[..2] == "0x" || address[..2] == "0X")
            && forall i :: 2 <= i < 42 ==> address[i] in "0123456789abcdefABCDEF"
    ensures EvmDigits(address).Some? ==> EvmDigits(address).value == address[2..]
  {
    if |address| == 42 {
      assert address[..2] == [address[0], address[1]];
      forall i | 2 <= i < 42 ensures IsHex(address[i]) <==> address[i] in "0123456789abcdefABCDEF" {
        HexDigitsAre(address[i]);
      }
      hide HexDigit, IsHex;
    }
  }

  /** The number the digits write, whatever their case. */
  function HexValue(digits: string): nat
    requires forall i :: 0 <= i < |digits| ==> IsHex(digits[i])
  {
    if digits == [] then 0
    else
      assert IsHex(digits[|digits| - 1]);
      16 * HexValue(digits[..|digits| - 1]) + HexDigit(digits[|digits| - 1]).value
  }

  /** Big-endian value. */
  function BytesValue(bytes: seq<int>): int {
    if bytes == [] then 0 else 256 * BytesValue(bytes[..|bytes| - 1]) + bytes[|bytes| - 1]
  }

  ghost predicate AreBytes(bytes: seq<int>) {
    forall i :: 0 <= i < |bytes| ==> 0 <= bytes[i] < 256
  }

  /** `evm_address_bytes`: pairs of digits fill the array from the front. */
  method EvmAddressBytes(address: string) returns (r: Option<seq<int>>)
    ensures r.Some? <==> EvmDigits(address).Some?
    ensures r.Some? ==> |r.value| == 20 && AreBytes(r.value) && BytesValue(r.value) == HexValue(address[2..])
    ensures r.Some? ==> |address| == 42 && forall i :: 0 <= i < 20 ==>
              Writes(address[2 * i + 2], r.value[i] / 16) && Writes(address[2 * i + 3], r.value[i] % 16)
  {
    if |address| < 2 || address[0] != '0' || (address[1] != 'x' && address[1] != 'X') {
      return None;
    }
    var digits := address[2..];
    if |digits| != 40 {
      return None;
    }
    hide *;
    r := ReadPairs(digits);
    if r.None? {
      NoDigits(address);
    } else {
      AllRead(address, r.value);
    }
  }

  /** The loop over the pairs of digits. */
  method ReadPairs(digits: string) returns (r: Option<seq<int>>)
    requires |digits| == 40
    ensures r.Some? ==> PairsRead(digits, 20, r.value)
    ensures r.None? ==> exists i :: 0 <= i < 40 && !IsHex(digits[i])
  {
    var bytes := new int[20](_ => 0);
    NoPairsRead(digits);
    assert bytes[..0] == [];
    hide PairsRead, HexDigit;
    for pair := 0 to 20
      invariant PairsRead(digits, pair, bytes[..pair])
    {
      var high := HexDigit(digits[2 * pair]);
      if high.None? {
        return None;
      }
      var low := HexDigit(digits[2 * pair + 1]);
      if low.None? {
        return None;
      }
      ghost var before := bytes[..pair];
      bytes[pair] := high.value * 16 + low.value;
      assert bytes[..pair + 1] == before + [high.value * 16 + low.value];
      PairRead(digits, pair, before, high.value, low.value);
    }
    assert bytes[..20] == bytes[..];
    return Some(bytes[..]);
  }

  lemma NoDigits(address: string)
    requires |address| == 42 && exists i :: 0 <= i < 40 && !IsHex(address[2..][i])
    ensures EvmDigits(address).None?
  {
    var i :| 0 <= i < 40 && !IsHex(address[2..][i]);
    assert !IsHex(address[i + 2]);
  }

  lemma AllRead(address: string, bytes: seq<int>)
    requires |address| == 42 && address[0] == '0' && (address[1] == 'x' || address[1] == 'X')
    requires PairsRead(address[2..], 20, bytes)
    ensures EvmDigits(address).Some? && |bytes| == 20 && AreBytes(bytes) && BytesValue(bytes) == HexValue(address[2..])
    ensures forall i :: 0 <= i < 20 ==>
              Writes(address[2 * i + 2], bytes[i] / 16) && Writes(address[2 * i + 3], bytes[i] % 16)
  {
    hide Writes;
    var digits := address[2..];
    assert digits[..40] == digits;
    assert forall i :: 2 <= i < 42 ==> address[i] == digits[i - 2];
  }

  /** `bytes` holds the first `pair` pairs of digits, which are hexadecimal. */
  ghost predicate PairsRead(digits: string, pair: nat, bytes: seq<int>) {
    && 2 * pair <= |digits| && |bytes| == pair
    && (forall i :: 0 <= i < 2 * pair ==> IsHex(digits[i]))
    && AreBytes(bytes) && BytesValue(bytes) == HexValue(digits[..2 * pair])
    && WrittenBy(digits, pair, bytes)
  }

  lemma NoPairsRead(digits: string)
    ensures PairsRead(digits, 0, [])
  {
  }

  lemma PairRead(digits: string, pair: nat, bytes: seq<int>, high: nat, low: nat)
    requires 2 * pair + 2 <= |digits| && PairsRead(digits, pair, bytes)
    requires HexDigit(digits[2 * pair]) == Some(high) && HexDigit(digits[2 * pair + 1]) == Some(low)
    ensures PairsRead(digits, pair + 1, bytes + [high * 16 + low])
  {
    hide *;
    PairTaken(digits, pair, bytes);
    HexDigitRange(digits[2 * pair], high);
    HexDigitRange(digits[2 * pair + 1], low);
    ValueRead(digits, pair, bytes, high, low);
    WrittenMore(digits, pair, bytes, high, low);
    PairPut(digits, pair, bytes + [high * 16 + low]);
  }

  lemma PairTaken(digits: string, pair: nat, bytes: seq<int>)
    requires PairsRead(digits, pair, bytes)
    ensures 2 * pair <= |digits| && |bytes| == pair && forall i :: 0 <= i < 2 * pair ==> IsHex(digits[i])
    ensures AreBytes(bytes) && BytesValue(bytes) == HexValue(digits[..2 * pair]) && WrittenBy(digits, pair, bytes)
  {
  }

  lemma PairPut(digits: string, pair: nat, bytes: seq<int>)
    requires 2 * pair + 2 <= |digits| && |bytes| == pair + 1
    requires forall i :: 0 <= i < 2 * pair + 2 ==> IsHex(digits[i])
    requires AreBytes(bytes) && BytesValue(bytes) == HexValue(digits[..2 * pair + 2])
    requires WrittenBy(digits, pair + 1, bytes)
    ensures PairsRead(digits, pair + 1, bytes)
  {
    hide IsHex, AreBytes, BytesValue, HexValue, WrittenBy;
    assert digits[..2 * (pair + 1)] == digits[..2 * pair + 2];
  }

  lemma ValueRead(digits: string, pair: nat, bytes: seq<int>, high: nat, low: nat)
    requires 2 * pair + 2 <= |digits| && forall i :: 0 <= i < 2 * pair + 2 ==> IsHex(digits[i])
    requires HexDigit(digits[2 * pair]) == Some(high) && HexDigit(digits[2 * pair + 1]) == Some(low)
    requires high < 16 && low < 16 && AreBytes(bytes) && BytesValue(bytes) == HexValue(digits[..2 * pair])
    ensures AreBytes(bytes + [high * 16 + low])
    ensures BytesValue(bytes + [high * 16 + low]) == HexValue(digits[..2 * pair + 2])
  {
    hide HexDigit, HexValue, BytesValue, AreBytes, IsHex;
    TwoDigits(digits, pair);
    OneByteMore(bytes, high * 16 + low);
  }

  lemma OneByteMore(bytes: seq<int>, b: int)
    requires AreBytes(bytes) && 0 <= b < 256
    ensures AreBytes(bytes + [b]) && BytesValue(bytes + [b]) == 256 * BytesValue(bytes) + b
  {
    assert (bytes + [b])[..|bytes|] == bytes;
  }

  /** The first `n` bytes are the ones the digits write. */
  ghost predicate WrittenBy(digits: string, n: nat, bytes: seq<int>)
    requires 2 * n <= |digits| && n <= |bytes|
  {
    forall i :: 0 <= i < n ==> Writes(digits[2 * i], bytes[i] / 16) && Writes(digits[2 * i + 1], bytes[i] % 16)
  }

  lemma WrittenMore(digits: string, pair: nat, bytes: seq<int>, high: nat, low: nat)
    requires 2 * pair + 2 <= |digits| && |bytes| == pair && WrittenBy(digits, pair, bytes)
    requires Writes(digits[2 * pair], high) && Writes(digits[2 * pair + 1], low)
    ensures WrittenBy(digits, pair + 1, bytes + [high * 16 + low])
  {
    HalvesOfByte(high, low);
    hide Writes;
  }

  lemma HexDigitRange(c: char, v: nat)
    requires HexDigit(c) == Some(v)
    ensures v < 16 && IsHex(c) && Writes(c, v)
  {
    HexDigitMeans(c, v);
  }

  lemma HalvesOfByte(high: nat, low: nat)
    requires high < 16 && low < 16
    ensures (high * 16 + low) / 16 == high && (high * 16 + low) % 16 == low
  {
  }

  lemma TwoDigits(digits: string, pair: nat)
    requires 2 * pair + 2 <= |digits| && forall i :: 0 <= i < 2 * pair + 2 ==> IsHex(digits[i])
    ensures HexValue(digits[..2 * pair + 2]) ==
            256 * HexValue(digits[..2 * pair]) + HexDigit(digits[2 * pair]).value * 16
              + HexDigit(digits[2 * pair + 1]).value
  {
    var d := digits[..2 * pair + 2];
    assert d[..2 * pair + 1] == digits[..2 * pair + 1] && digits[..2 * pair + 1][..2 * pair] == digits[..2 * pair];
  }

  // ----- letters of either case -----

  /** The same letter in lower case; anything else as it is. */
  function Lower(c: char): char {
    if 'A' <= c <= 'Z' then 'a' + (c - 'A') else c
  }

  /** Each capital has its small letter, and nothing else changes. */
  lemma LowerMeans(c: char, k: nat)
    requires k < 26
    ensures Lower("ABCDEFGHIJKLMNOPQRSTUVWXYZ"[k]) == "abcdefghijklmnopqrstuvwxyz"[k]
    ensures Lower(c) != c ==> 'A' <= c <= 'Z'
  {
  }

  lemma CaseOfDigit(a: char, b: char)
    requires Lower(a) == Lower(b)
    ensures HexDigit(a) == HexDigit(b) && IsHex(a) == IsHex(b)
  {
  }

  lemma {:induction false} CaseOfDigits(a: string, b: string)
    requires |a| == |b| && forall i :: 0 <= i < |a| ==> IsHex(a[i]) && Lower(a[i]) == Lower(b[i])
    ensures (forall i :: 0 <= i < |b| ==> IsHex(b[i])) && HexValue(a) == HexValue(b)
  {
    forall i | 0 <= i < |a| ensures IsHex(b[i]) && HexDigit(a[i]) == HexDigit(b[i]) { CaseOfDigit(a[i], b[i]); }
    hide HexDigit, Lower;
    if a != [] { CaseOfDigits(a[..|a| - 1], b[..|b| - 1]); }
  }

  /** Addresses that differ only in case are EVM addresses together, with the same value. */
  lemma CaseDoesNotMatter(a: string, b: string)
    requires |a| == |b| && forall i :: 0 <= i < |a| ==> Lower(a[i]) == Lower(b[i])
    ensures EvmDigits(a).Some? <==> EvmDigits(b).Some?
    ensures ValueOf(a) == ValueOf(b)
  {
    forall i | 0 <= i < |a| ensures IsHex(a[i]) == IsHex(b[i]) { CaseOfDigit(a[i], b[i]); }
    if EvmDigits(a).Some? { CaseOfDigits(a[2..], b[2..]); }
  }

  // ----- the order -----

  /** What `signer_order` compares by: EVM addresses first, by their value, then by text. */
  predicate SignerLess(a: string, b: string) {
    var da, db := EvmDigits(a), EvmDigits(b);
    if da.Some? && db.Some? then
      ValueOf(a) < ValueOf(b) || (ValueOf(a) == ValueOf(b) && TextLess(a, b))
    else if da.Some? || db.Some? then da.Some?
    else TextLess(a, b)
  }

  /** The 160-bit value of an EVM address. */
  function ValueOf(a: string): nat {
    var d := EvmDigits(a);
    if d.Some? then HexValue(d.value) else 0
  }

  /** EVM addresses come before all others and ascend by the number their digits write; addresses
      of the same value, and those that are not EVM addresses, go by text. */
  lemma SignerLessMeans(a: string, b: string)
    ensures EvmDigits(a).Some? ==> ValueOf(a) == HexValue(a[2..])
    ensures EvmDigits(a).Some? && EvmDigits(b).Some? && ValueOf(a) != ValueOf(b) ==>
              (SignerLess(a, b) <==> ValueOf(a) < ValueOf(b))
    ensures EvmDigits(a).Some? && EvmDigits(b).Some? && ValueOf(a) == ValueOf(b) ==>
              (SignerLess(a, b) <==> TextLess(a, b))
    ensures EvmDigits(a).Some? && EvmDigits(b).None? ==> SignerLess(a, b) && !SignerLess(b, a)
    ensures EvmDigits(a).None? && EvmDigits(b).None? ==> (SignerLess(a, b) <==> TextLess(a, b))
  {
    hide HexValue, TextLess;
  }

  /** `signer_order` itself: a flag, the bytes, the text, compared as tuples are. */
  predicate SignerOrderLess(a: string, aBytes: Option<seq<int>>, b: string, bBytes: Option<seq<int>>) {
    if aBytes.None? != bBytes.None? then bBytes.None?
    else if aBytes.None? then TextLess(a, b)
    else LexLess(aBytes.value, bBytes.value) || (aBytes.value == bBytes.value && TextLess(a, b))
  }

  /** Arrays compare element by element. */
  predicate LexLess(a: seq<int>, b: seq<int>) {
    a != [] && b != [] && (a[0] < b[0] || (a[0] == b[0] && LexLess(a[1..], b[1..])))
  }

  function Pow256(n: nat): nat {
    if n == 0 then 1 else 256 * Pow256(n - 1)
  }

  lemma Scale(x: int, p: int)
    ensures 256 * (x * p) == x * (256 * p)
  {
  }

  lemma {:induction false} ValueFromFront(bytes: seq<int>)
    requires bytes != [] && AreBytes(bytes)
    ensures BytesValue(bytes) == bytes[0] * Pow256(|bytes| - 1) + BytesValue(bytes[1..])
    ensures 0 <= BytesValue(bytes[1..]) < Pow256(|bytes| - 1)
  {
    var n := |bytes| - 1;
    if n == 0 {
      assert bytes[..0] == [] && bytes[1..] == [];
    } else {
      ValueFromFront(bytes[..n]);
      assert bytes[..n][1..] == bytes[1..][..n - 1];
      assert bytes[1..][n - 1] == bytes[n];
      Scale(bytes[0], Pow256(n - 1));
    }
  }

  /** Equally long byte arrays compare as the numbers they write. */
  lemma {:induction false} LexIsNumeric(a: seq<int>, b: seq<int>)
    requires |a| == |b| && AreBytes(a) && AreBytes(b)
    ensures LexLess(a, b) <==> BytesValue(a) < BytesValue(b)
    ensures a == b <==> BytesValue(a) == BytesValue(b)
  {
    if a != [] {
      ValueFromFront(a);
      ValueFromFront(b);
      LexIsNumeric(a[1..], b[1..]);
      LeadingByte(a[0], b[0], Pow256(|a| - 1), BytesValue(a[1..]), BytesValue(b[1..]));
      assert a == [a[0]] + a[1..] && b == [b[0]] + b[1..];
    }
  }

  lemma AtLeastOne(k: int, p: int)
    requires k >= 1 && p > 0
    ensures k * p >= p
  {
    assert k * p == p + (k - 1) * p;
    assert (k - 1) * p >= 0;
  }

  lemma Distributes(x: int, y: int, p: int)
    ensures (y - x) * p == y * p - x * p
  {
  }

  lemma LeadingByte(x: int, y: int, p: int, u: int, v: int)
    requires p > 0 && 0 <= u < p && 0 <= v < p
    ensures x < y ==> x * p + u < y * p + v
    ensures y < x ==> y * p + v < x * p + u
  {
    Distributes(x, y, p);
    Distributes(y, x, p);
    if x < y {
      AtLeastOne(y - x, p);
    } else if y < x {
      AtLeastOne(x - y, p);
    }
  }

  /** The compared tuples order addresses as `SignerLess` says: EVM addresses before all
      others, ascending by 160-bit value, and otherwise by text. */
  lemma SignerOrderMeans(a: string, aBytes: Option<seq<int>>, b: string, bBytes: Option<seq<int>>)
    requires aBytes.Some? <==> EvmDigits(a).Some?
    requires bBytes.Some? <==> EvmDigits(b).Some?
    requires aBytes.Some? ==>
             |aBytes.value| == 20 && AreBytes(aBytes.value) && BytesValue(aBytes.value) == HexValue(a[2..])
    requires bBytes.Some? ==>
             |bBytes.value| == 20 && AreBytes(bBytes.value) && BytesValue(bBytes.value) == HexValue(b[2..])
    ensures SignerOrderLess(a, aBytes, b, bBytes) <==> SignerLess(a, b)
  {
    if aBytes.Some? && bBytes.Some? {
      LexIsNumeric(aBytes.value, bBytes.value);
    }
  }

  /** The order is a strict total order on addresses. */
  lemma SignerOrderTotal(a: string, b: string)
    ensures SignerLess(a, b) || a == b || SignerLess(b, a)
    ensures !(SignerLess(a, b) && SignerLess(b, a))
    ensures !SignerLess(a, a)
  {
    hide EvmDigits, ValueOf, TextLess;
    TextTotal(a, b);
    if TextLess(a, b) { TextAsymmetric(a, b); }
    if TextLess(b, a) { TextAsymmetric(b, a); }
    if TextLess(a, a) { TextAsymmetric(a, a); }
  }

  lemma SignerOrderTransitive(a: string, b: string, c: string)
    requires SignerLess(a, b) && SignerLess(b, c)
    ensures SignerLess(a, c)
  {
    hide EvmDigits, ValueOf, TextLess;
    if TextLess(a, b) && TextLess(b, c) { TextTransitive(a, b, c); }
  }

  // ----- collecting -----

  datatype Signature = Signature(address: string, signature: string)

  /** What one URI's request came to: a decoded response, or an error. */
  datatype Answer =
    | Answered(signatures: seq<Signature>, payload: string)
    | Errored(uri: string)

  datatype Response = Response(signatures: seq<Signature>, payload: string)

  datatype Result =
    | Ok(response: Response)
    | NoUris
    | NotEnough(failedUris: seq<string>, collected: nat)

  /** All signatures of the first `n` answers, in order of arrival. */
  function Collected(answers: seq<Answer>, n: nat): seq<Signature>
    requires n <= |answers|
  {
    if n == 0 then []
    else (if answers[n - 1].Answered? then Collected(answers, n - 1) + answers[n - 1].signatures
         else Collected(answers, n - 1))
  }

  function FailedUris(answers: seq<Answer>, n: nat): seq<string>
    requires n <= |answers|
  {
    if n == 0 then []
    else (if answers[n - 1].Errored? then FailedUris(answers, n - 1) + [answers[n - 1].uri]
         else FailedUris(answers, n - 1))
  }

  /** The payload of the first response among the first `n` answers. */
  function FirstPayload(answers: seq<Answer>, n: nat): Option<string>
    requires n <= |answers|
  {
    if n == 0 then None
    else
      var before := FirstPayload(answers, n - 1);
      if before.None? && answers[n - 1].Answered? then Some(answers[n - 1].payload) else before
  }

  /** A success after which enough signatures have come in. */
  predicate ReachesQuorum(answers: seq<Answer>, k: nat, quorum: nat)
    requires k < |answers|
  {
    answers[k].Answered? && |Collected(answers, k + 1)| >= quorum
  }

  predicate AddressLess(a: Signature, b: Signature) {
    SignerLess(a.address, b.address)
  }

  /** `sort_by` with `signer_order`: stable insertion. */
  function InsertSignature(sorted: seq<Signature>, x: Signature): seq<Signature> {
    if sorted == [] || !AddressLess(x, sorted[|sorted| - 1]) then sorted + [x]
    else InsertSignature(sorted[..|sorted| - 1], x) + [sorted[|sorted| - 1]]
  }

  function SortSignatures(s: seq<Signature>): seq<Signature> {
    if s == [] then [] else InsertSignature(SortSignatures(s[..|s| - 1]), s[|s| - 1])
  }

  ghost predicate InSignerOrder(s: seq<Signature>) {
    forall i, j :: 0 <= i < j < |s| ==> !AddressLess(s[j], s[i])
  }

  lemma NotLessTransitive(a: Signature, b: Signature, c: Signature)
    requires !AddressLess(b, a) && !AddressLess(c, b)
    ensures !AddressLess(c, a)
  {
    hide SignerLess;
    SignerOrderTotal(a.address, b.address);
    SignerOrderTotal(b.address, c.address);
    if SignerLess(a.address, b.address) && SignerLess(b.address, c.address) {
      SignerOrderTransitive(a.address, b.address, c.address);
    }
    SignerOrderTotal(a.address, c.address);
  }

  lemma AppendInOrder(a: seq<Signature>, x: Signature)
    requires InSignerOrder(a) && forall i :: 0 <= i < |a| ==> !AddressLess(x, a[i])
    ensures InSignerOrder(a + [x])
  {
    hide AddressLess;
  }

  lemma PrefixInOrder(a: seq<Signature>, n: nat)
    requires InSignerOrder(a) && n <= |a|
    ensures InSignerOrder(a[..n])
  {
    hide AddressLess;
  }

  /** What is inserted before the last element leaves the last element last. */
  lemma LastStaysLast(sorted: seq<Signature>, x: Signature, inner: seq<Signature>)
    requires sorted != [] && InSignerOrder(sorted) && AddressLess(x, sorted[|sorted| - 1])
    requires multiset(inner) == multiset(sorted[..|sorted| - 1]) + multiset{x}
    ensures forall i :: 0 <= i < |inner| ==> !AddressLess(sorted[|sorted| - 1], inner[i])
  {
    hide AddressLess;
    var n := |sorted| - 1;
    forall i | 0 <= i < |inner| ensures !AddressLess(sorted[n], inner[i]) {
      assert inner[i] in multiset(inner);
      if inner[i] == x {
        LessIsNotGreater(x, sorted[n]);
      } else {
        var k :| 0 <= k < n && sorted[..n][k] == inner[i];
        assert !AddressLess(sorted[n], sorted[k]);
      }
    }
  }

  lemma AllBefore(sorted: seq<Signature>, x: Signature)
    requires sorted != [] && InSignerOrder(sorted) && !AddressLess(x, sorted[|sorted| - 1])
    ensures forall i :: 0 <= i < |sorted| ==> !AddressLess(x, sorted[i])
  {
    hide AddressLess;
    var n := |sorted| - 1;
    forall i | 0 <= i < |sorted| ensures !AddressLess(x, sorted[i]) {
      if i < n { NotLessTransitive(sorted[i], sorted[n], x); }
    }
  }

  lemma {:induction false} InsertKeepsOrder(sorted: seq<Signature>, x: Signature)
    requires InSignerOrder(sorted)
    ensures var r := InsertSignature(sorted, x);
            InSignerOrder(r) && multiset(r) == multiset(sorted) + multiset{x}
  {
    hide AddressLess, InSignerOrder;
    if sorted == [] {
      AppendInOrder([], x);
    } else {
      var n := |sorted| - 1;
      assert sorted == sorted[..n] + [sorted[n]];
      if AddressLess(x, sorted[n]) {
        var inner := InsertSignature(sorted[..n], x);
        PrefixInOrder(sorted, n);
        InsertKeepsOrder(sorted[..n], x);
        LastStaysLast(sorted, x, inner);
        AppendInOrder(inner, sorted[n]);
      } else {
        AllBefore(sorted, x);
        AppendInOrder(sorted, x);
      }
    }
  }

  lemma LessIsNotGreater(a: Signature, b: Signature)
    requires AddressLess(a, b)
    ensures !AddressLess(b, a)
  {
    SignerOrderTotal(a.address, b.address);
  }

  lemma {:induction false} SortIsSorted(s: seq<Signature>)
    ensures InSignerOrder(SortSignatures(s)) && multiset(SortSignatures(s)) == multiset(s)
  {
    hide InsertSignature, AddressLess;
    if s != [] {
      var n := |s| - 1;
      SortIsSorted(s[..n]);
      InsertKeepsOrder(SortSignatures(s[..n]), s[n]);
      assert s == s[..n] + [s[n]];
    }
  }

  // ----- the sort is stable, and that leaves no choice -----

  /** The signatures of one address, as they came. */
  function FromAddress(s: seq<Signature>, address: string): seq<Signature> {
    if s == [] then []
    else
      var n := |s| - 1;
      FromAddress(s[..n], address) + if s[n].address == address then [s[n]] else []
  }

  lemma FromAddressNext(s: seq<Signature>, x: Signature, address: string)
    ensures FromAddress(s + [x], address) == FromAddress(s, address) + if x.address == address then [x] else []
  {
    assert (s + [x])[..|s|] == s;
  }

  lemma LessDiffers(a: Signature, b: Signature)
    requires AddressLess(a, b)
    ensures a.address != b.address
  {
    SignerOrderTotal(a.address, b.address);
  }

  /** A signature is inserted past none of its own address. */
  lemma {:induction false} InsertIsStable(sorted: seq<Signature>, x: Signature, address: string)
    ensures FromAddress(InsertSignature(sorted, x), address) == FromAddress(sorted + [x], address)
  {
    hide AddressLess;
    FromAddressNext(sorted, x, address);
    if sorted != [] {
      var n := |sorted| - 1;
      if AddressLess(x, sorted[n]) {
        LessDiffers(x, sorted[n]);
        InsertIsStable(sorted[..n], x, address);
        FromAddressNext(sorted[..n], x, address);
        FromAddressNext(InsertSignature(sorted[..n], x), sorted[n], address);
      }
    }
  }

  /** Signatures of the same address keep the order they came in. */
  lemma {:induction false} SortIsStable(s: seq<Signature>, address: string)
    ensures FromAddress(SortSignatures(s), address) == FromAddress(s, address)
  {
    hide InsertSignature;
    if s != [] {
      var n := |s| - 1;
      var sorted := SortSignatures(s[..n]);
      SortIsStable(s[..n], address);
      InsertIsStable(sorted, s[n], address);
      FromAddressNext(sorted, s[n], address);
    }
  }

  ghost predicate SameByAddress(s: seq<Signature>, t: seq<Signature>) {
    forall address :: FromAddress(s, address) == FromAddress(t, address)
  }

  lemma {:induction false} HasAddress(s: seq<Signature>, address: string)
    ensures FromAddress(s, address) != [] <==> exists i :: 0 <= i < |s| && s[i].address == address
  {
    if s != [] {
      var n := |s| - 1;
      HasAddress(s[..n], address);
      if i :| 0 <= i < n && s[..n][i].address == address { assert s[i].address == address; }
      if i :| 0 <= i < |s| && s[i].address == address { assert i == n || s[..n][i].address == address; }
    }
  }

  lemma LastFromAddress(s: seq<Signature>)
    requires s != []
    ensures var last := s[|s| - 1];
            var all := FromAddress(s, last.address);
            all != [] && all[|all| - 1] == last
  {
  }

  lemma SameEmpty(s: seq<Signature>, t: seq<Signature>)
    requires SameByAddress(s, t)
    ensures s == [] <==> t == []
  {
    if s != [] { LastFromAddress(s); }
    if t != [] { LastFromAddress(t); }
  }

  /** In signer order the last address is the greatest, and so the same. */
  lemma SameLast(s: seq<Signature>, t: seq<Signature>)
    requires InSignerOrder(s) && InSignerOrder(t) && SameByAddress(s, t) && s != [] && t != []
    ensures s[|s| - 1] == t[|t| - 1]
  {
    hide AddressLess;
    var (x, y) := (s[|s| - 1], t[|t| - 1]);
    LastFromAddress(s);
    LastFromAddress(t);
    HasAddress(s, y.address);
    HasAddress(t, x.address);
    var i :| 0 <= i < |s| && s[i].address == y.address;
    var j :| 0 <= j < |t| && t[j].address == x.address;
    NotGreater(s, i);
    NotGreater(t, j);
    SignerOrderTotal(x.address, y.address);
    hide SignerLess;
    assert x.address == y.address;
  }

  lemma NotGreater(s: seq<Signature>, i: nat)
    requires InSignerOrder(s) && i < |s|
    ensures !SignerLess(s[|s| - 1].address, s[i].address)
  {
    SignerOrderTotal(s[i].address, s[i].address);
    hide SignerLess;
    if i < |s| - 1 { assert !AddressLess(s[|s| - 1], s[i]); }
  }

  lemma StemFromAddress(s: seq<Signature>, address: string)
    requires s != []
    ensures var (n, all) := (|s| - 1, FromAddress(s, address));
            if s[n].address == address then all == FromAddress(s[..n], address) + [s[n]]
            else all == FromAddress(s[..n], address)
  {
  }

  lemma SameStem(a: seq<Signature>, b: seq<Signature>, last: Signature)
    ensures a + [last] == b + [last] ==> a == b
  {
    assert (a + [last])[..|a|] == a && (b + [last])[..|b|] == b;
  }

  /** Signer order and the order within each address together determine the whole. */
  lemma {:induction false} OrderUnique(s: seq<Signature>, t: seq<Signature>)
    requires InSignerOrder(s) && InSignerOrder(t) && SameByAddress(s, t)
    ensures s == t
  {
    SameEmpty(s, t);
    hide FromAddress, InSignerOrder;
    if s != [] {
      var (m, n) := (|s| - 1, |t| - 1);
      SameLast(s, t);
      PrefixInOrder(s, m);
      PrefixInOrder(t, n);
      forall address ensures FromAddress(s[..m], address) == FromAddress(t[..n], address) {
        StemFromAddress(s, address);
        StemFromAddress(t, address);
        SameStem(FromAddress(s[..m], address), FromAddress(t[..n], address), s[m]);
      }
      OrderUnique(s[..m], t[..n]);
      assert s == s[..m] + [s[m]] && t == t[..n] + [t[n]];
    }
  }

  /** So the sort is the one arrangement in signer order that keeps each address's order. */
  lemma SortIsOnly(s: seq<Signature>, t: seq<Signature>)
    requires InSignerOrder(t) && SameByAddress(s, t)
    ensures t == SortSignatures(s)
  {
    SortIsSorted(s);
    forall address ensures FromAddress(SortSignatures(s), address) == FromAddress(t, address) {
      SortIsStable(s, address);
    }
    hide FromAddress, InSignerOrder, SortSignatures;
    OrderUnique(SortSignatures(s), t);
  }

  ghost predicate DifferentAddresses(s: seq<Signature>) {
    forall i, j :: 0 <= i < j < |s| ==> s[i].address != s[j].address
  }

  lemma {:induction false} OnlyOneFrom(s: seq<Signature>, i: nat)
    requires DifferentAddresses(s) && i < |s|
    ensures FromAddress(s, s[i].address) == [s[i]]
  {
    var n := |s| - 1;
    if i < n {
      OnlyOneFrom(s[..n], i);
    } else {
      HasAddress(s[..n], s[n].address);
    }
  }

  /** With different addresses the answer does not depend on the order of arrival. */
  lemma ArrivalDoesNotMatter(s: seq<Signature>, t: seq<Signature>)
    requires multiset(s) == multiset(t) && DifferentAddresses(s) && DifferentAddresses(t)
    ensures SortSignatures(s) == SortSignatures(t)
  {
    SortIsSorted(t);
    forall address ensures FromAddress(s, address) == FromAddress(SortSignatures(t), address) {
      SortIsStable(t, address);
      SameFrom(s, t, address);
    }
    hide FromAddress, InSignerOrder, SortSignatures;
    SortIsOnly(s, SortSignatures(t));
  }

  lemma AlsoFrom(s: seq<Signature>, t: seq<Signature>, address: string)
    requires multiset(s) == multiset(t) && exists i :: 0 <= i < |s| && s[i].address == address
    ensures exists j :: 0 <= j < |t| && t[j].address == address
  {
    var i :| 0 <= i < |s| && s[i].address == address;
    assert s[i] in multiset(t);
    var j :| 0 <= j < |t| && t[j] == s[i];
  }

  lemma SameFrom(s: seq<Signature>, t: seq<Signature>, address: string)
    requires multiset(s) == multiset(t) && DifferentAddresses(s) && DifferentAddresses(t)
    ensures FromAddress(s, address) == FromAddress(t, address)
  {
    hide FromAddress;
    HasAddress(s, address);
    HasAddress(t, address);
    if FromAddress(t, address) != [] { AlsoFrom(t, s, address); }
    if i :| 0 <= i < |s| && s[i].address == address {
      assert s[i] in multiset(t);
      var j :| 0 <= j < |t| && t[j] == s[i];
      OnlyOneFrom(s, i);
      OnlyOneFrom(t, j);
    }
  }

  /** The payload kept is that of the first answer that was a response. */
  lemma {:induction false} FirstPayloadMeans(answers: seq<Answer>, n: nat, payload: string)
    requires n <= |answers|
    ensures FirstPayload(answers, n) == Some(payload) <==>
            exists i :: 0 <= i < n && answers[i].Answered? && answers[i].payload == payload
                        && forall j :: 0 <= j < i ==> answers[j].Errored?
    ensures FirstPayload(answers, n).None? <==> forall j :: 0 <= j < n ==> answers[j].Errored?
  {
    if n > 0 {
      FirstPayloadMeans(answers, n - 1, payload);
      if FirstPayload(answers, n - 1).None? && answers[n - 1].Answered? {
        assert forall j :: 0 <= j < n - 1 ==> answers[j].Errored?;
      }
    }
  }

  ghost predicate NoQuorumBefore(answers: seq<Answer>, n: nat, quorum: nat) {
    forall j :: 0 <= j < n && j < |answers| ==> !ReachesQuorum(answers, j, quorum)
  }

  /** `response` is what the first success to reach the quorum, at `k`, concludes with: every
      signature collected by then, in signer order, those of one address as they came, and the
      first payload. */
  ghost predicate Concludes(answers: seq<Answer>, k: nat, quorum: nat, response: Response) {
    && k < |answers| && ReachesQuorum(answers, k, quorum) && NoQuorumBefore(answers, k, quorum)
    && multiset(response.signatures) == multiset(Collected(answers, k + 1))
    && InSignerOrder(response.signatures) && SameByAddress(response.signatures, Collected(answers, k + 1))
    && FirstPayload(answers, k + 1) == Some(response.payload)
  }

  /** What has been gathered from the first `n` answers. */
  ghost predicate Gathered(answers: seq<Answer>, n: nat, quorum: nat, signatures: seq<Signature>,
                           firstPayload: Option<string>, failed: seq<string>) {
    && n <= |answers| && signatures == Collected(answers, n) && firstPayload == FirstPayload(answers, n)
    && failed == FailedUris(answers, n) && NoQuorumBefore(answers, n, quorum)
  }

  lemma QuorumBeforeNext(answers: seq<Answer>, n: nat, quorum: nat)
    requires n < |answers| && NoQuorumBefore(answers, n, quorum) && !ReachesQuorum(answers, n, quorum)
    ensures NoQuorumBefore(answers, n + 1, quorum)
  {
    hide ReachesQuorum;
  }

  lemma GatherAnswered(answers: seq<Answer>, n: nat, quorum: nat, signatures: seq<Signature>,
                       firstPayload: Option<string>, failed: seq<string>)
    requires n < |answers| && Gathered(answers, n, quorum, signatures, firstPayload, failed) && answers[n].Answered?
    ensures var all := signatures + answers[n].signatures;
            var payload := if firstPayload.None? then Some(answers[n].payload) else firstPayload;
            && (|all| >= quorum ==> Concludes(answers, n, quorum, Response(SortSignatures(all), payload.value)))
            && (|all| < quorum ==> Gathered(answers, n + 1, quorum, all, payload, failed))
  {
    var all := signatures + answers[n].signatures;
    SortIsSorted(all);
    forall address ensures FromAddress(SortSignatures(all), address) == FromAddress(all, address) {
      SortIsStable(all, address);
    }
    hide InSignerOrder, SortSignatures, NoQuorumBefore, FromAddress;
    assert Collected(answers, n + 1) == all;
    assert ReachesQuorum(answers, n, quorum) <==> |all| >= quorum;
    if |all| < quorum { QuorumBeforeNext(answers, n, quorum); }
  }

  lemma GatherErrored(answers: seq<Answer>, n: nat, quorum: nat, signatures: seq<Signature>,
                      firstPayload: Option<string>, failed: seq<string>)
    requires n < |answers| && Gathered(answers, n, quorum, signatures, firstPayload, failed) && answers[n].Errored?
    ensures Gathered(answers, n + 1, quorum, signatures, firstPayload, failed + [answers[n].uri])
  {
    hide NoQuorumBefore;
    assert !ReachesQuorum(answers, n, quorum);
    QuorumBeforeNext(answers, n, quorum);
  }

  /** `call_resolve_and_sign` over the answers in the order they arrive, one for each URI.
      The loop keeps an answer outstanding, so it never falls through to the error after it. */
  method CallResolveAndSign(uris: seq<string>, answers: seq<Answer>, quorum: nat) returns (r: Result)
    requires |answers| == |uris|
    ensures r.NoUris? <==> uris == []
    ensures r.Ok? ==> exists k :: Concludes(answers, k, quorum, r.response)
    ensures r.NotEnough? ==>
              && NoQuorumBefore(answers, |answers|, quorum) && r.failedUris == FailedUris(answers, |answers|)
              && r.collected == |Collected(answers, |answers|)|
  {
    hide Collected, FailedUris, FirstPayload, SortSignatures, Concludes, NoQuorumBefore;
    if uris == [] {
      return NoUris;
    }
    var signatures: seq<Signature> := [];
    var firstPayload: Option<string> := None;
    var urisErrored: seq<string> := [];
    var resolved, errored, next := 0, 0, 0;
    NothingGathered(answers, quorum);
    while true
      invariant next < |answers| && resolved + errored == next
      invariant Gathered(answers, next, quorum, signatures, firstPayload, urisErrored)
      decreases |answers| - next
    {
      var answer := answers[next];
      if answer.Answered? {
        GatherAnswered(answers, next, quorum, signatures, firstPayload, urisErrored);
      } else {
        GatherErrored(answers, next, quorum, signatures, firstPayload, urisErrored);
      }
      next := next + 1;
      match answer {
        case Answered(more, payload) =>
          resolved := resolved + 1;
          if firstPayload.None? {
            firstPayload := Some(payload);
          }
          signatures := signatures + more;
          if |signatures| >= quorum {
            return Ok(Response(SortSignatures(signatures), firstPayload.value));
          }
        case Errored(uri) =>
          errored := errored + 1;
          urisErrored := urisErrored + [uri];
      }
      if errored + resolved >= |uris| {
        return NotEnough(urisErrored, |signatures|);
      }
    }
  }

  lemma NothingGathered(answers: seq<Answer>, quorum: nat)
    ensures Gathered(answers, 0, quorum, [], None, [])
  {
  }
}
