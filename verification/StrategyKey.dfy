/** `canonical_strategy_key`: the JSON text that stands for a strategy, from which the
    strategy can be recovered. */
module StrategyKey {
  import opened TextOrder
  import opened Quorum

  function Digit(d: nat): char
    requires d < 10
  {
    '0' + d as char
  }

  /** `u64::to_string`. */
  function Decimal(n: nat): string {
    if n < 10 then [Digit(n)] else Decimal(n / 10) + [Digit(n % 10)]
  }

  function RenderQuorum(q: Quorum): string {
    match q
    case Count(n) => Decimal(n)
    case Max => "\"max\""
  }

  type Entry = (Category, Quorum)

  /** A requirement's entries, in key order. */
  function Entries(req: Requirement): seq<Entry> {
    EntriesAt(req, Ascending(req.Keys))
  }

  function EntriesAt(req: Requirement, keys: seq<Category>): seq<Entry>
    requires forall k :: k in keys ==> k in req
  {
    if keys == [] then [] else [(keys[0], req[keys[0]])] + EntriesAt(req, keys[1..])
  }

  function RenderEntry(e: Entry): string {
    "\"" + e.0.text + "\":" + RenderQuorum(e.1)
  }

  function JoinEntries(entries: seq<Entry>): string {
    if entries == [] then ""
    else if |entries| == 1 then RenderEntry(entries[0])
    else RenderEntry(entries[0]) + "," + JoinEntries(entries[1..])
  }

  function RenderRequirement(req: Requirement): string {
    "{" + JoinEntries(Entries(req)) + "}"
  }

  function JoinRequirements(reqs: seq<Requirement>): string {
    if reqs == [] then ""
    else if |reqs| == 1 then RenderRequirement(reqs[0])
    else RenderRequirement(reqs[0]) + "," + JoinRequirements(reqs[1..])
  }

  function RenderList(reqs: seq<Requirement>): string {
    "[" + JoinRequirements(reqs) + "]"
  }

  function CanonicalKey(strategy: Strategy): string {
    "{\"allOf\":" + RenderList(strategy.allOf) + ",\"oneOf\":" + RenderList(strategy.oneOf) + "}"
  }

  /** The names the renderer can quote without escaping them. */
  predicate Plain(name: Name) {
    '\"' !in name.text
  }

  predicate PlainRequirement(req: Requirement) {
    forall c :: c in req ==> Plain(c)
  }

  predicate PlainStrategy(strategy: Strategy) {
    && (forall r :: r in strategy.allOf ==> PlainRequirement(r))
    && (forall r :: r in strategy.oneOf ==> PlainRequirement(r))
  }

  // ----- numbers -----

  predicate IsDigit(c: char) {
    '0' <= c <= '9'
  }

  predicate AllDigits(s: string) {
    forall i :: 0 <= i < |s| ==> IsDigit(s[i])
  }

  lemma {:induction false} DecimalDigits(n: nat)
    ensures Decimal(n) != [] && AllDigits(Decimal(n))
  {
    if n >= 10 { DecimalDigits(n / 10); }
  }

  function Value(s: string): int {
    if s == [] then 0 else 10 * Value(s[..|s| - 1]) + (s[|s| - 1] as int - '0' as int)
  }

  /** Reading a printed count gives the count. */
  lemma {:induction false} ValueOfDecimal(n: nat)
    ensures Value(Decimal(n)) == n
  {
    if n < 10 {
      assert Decimal(n)[..0] == [];
    } else {
      ValueOfDecimal(n / 10);
      assert Decimal(n)[..|Decimal(n)| - 1] == Decimal(n / 10);
    }
  }

  lemma {:induction false} NoLeadingZero(n: nat)
    ensures |Decimal(n)| > 1 ==> Decimal(n)[0] != '0'
    ensures n > 0 ==> Decimal(n)[0] != '0'
  {
    if n >= 10 {
      DecimalDigits(n / 10);
      NoLeadingZero(n / 10);
    }
  }

  lemma ValueBounds(s: string)
    requires AllDigits(s)
    ensures Value(s) >= 0 && (s != [] && s[0] != '0' ==> Value(s) > 0)
    ensures Value(s) >= 10 <== |s| > 1 && s[0] != '0'
    decreases |s|
  {
    if s != [] { ValueBounds(s[..|s| - 1]); }
  }

  /** A printed count is the one numeral for it: digits, no leading zero, and that value. */
  lemma {:induction false} DecimalMeans(s: string, n: nat)
    ensures s == Decimal(n) <==> s != [] && AllDigits(s) && (|s| > 1 ==> s[0] != '0') && Value(s) == n
  {
    DecimalDigits(n);
    NoLeadingZero(n);
    ValueOfDecimal(n);
    if s != [] && AllDigits(s) && (|s| > 1 ==> s[0] != '0') && Value(s) == n {
      OneNumeral(s, n);
    }
  }

  lemma {:induction false} OneNumeral(s: string, n: nat)
    requires s != [] && AllDigits(s) && (|s| > 1 ==> s[0] != '0') && Value(s) == n
    ensures s == Decimal(n)
  {
    var front, last := s[..|s| - 1], s[|s| - 1];
    assert s == front + [last] && IsDigit(last);
    ValueBounds(front);
    if front == [] {
      assert Value(front) == 0 && s == [Digit(n)];
    } else {
      var tens: nat := Value(front);
      LastDigit(n, tens, last as int - '0' as int);
      OneNumeral(front, tens);
    }
  }

  lemma LastDigit(n: nat, tens: nat, ones: nat)
    requires n == 10 * tens + ones && ones < 10
    ensures n / 10 == tens && n % 10 == ones
  {
  }

  /** What follows a rendered value: never a digit. */
  predicate Delimited(s: string) {
    s != [] && !IsDigit(s[0])
  }

  lemma DigitsEnd(a: string, s: string, b: string, t: string)
    requires AllDigits(a) && AllDigits(b) && Delimited(s) && Delimited(t) && a + s == b + t
    ensures a == b && s == t
  {
    if |a| < |b| {
      ShorterStops(a, s, b, t);
    } else if |b| < |a| {
      ShorterStops(b, t, a, s);
    } else {
      SplitAt(a, s, b, t);
    }
  }

  /** Of two readings of one text, the longer goes on where the shorter stops. */
  lemma ShorterStops(a: string, s: string, b: string, t: string)
    requires a + s == b + t && |a| < |b|
    ensures s != [] && s[0] == b[|a|]
  {
    assert |a + s| == |b + t|;
    assert (a + s)[|a|] == s[0] && (b + t)[|a|] == b[|a|];
  }

  lemma SplitAt(a: string, s: string, b: string, t: string)
    requires a + s == b + t && |a| == |b|
    ensures a == b && s == t
  {
    assert a == (a + s)[..|a|] && b == (b + t)[..|b|];
    assert s == (a + s)[|a|..] && t == (b + t)[|b|..];
  }

  lemma QuorumRead(p: Quorum, s: string, q: Quorum, t: string)
    requires Delimited(s) && Delimited(t) && RenderQuorum(p) + s == RenderQuorum(q) + t
    ensures p == q && s == t
  {
    assert (RenderQuorum(p) + s)[0] == RenderQuorum(p)[0] by { if p.Count? { DecimalDigits(p.n); } }
    assert (RenderQuorum(q) + t)[0] == RenderQuorum(q)[0] by { if q.Count? { DecimalDigits(q.n); } }
    if p.Count? { DecimalDigits(p.n); }
    if q.Count? { DecimalDigits(q.n); }
    if p.Count? && q.Count? {
      DigitsEnd(Decimal(p.n), s, Decimal(q.n), t);
      ValueOfDecimal(p.n);
      ValueOfDecimal(q.n);
    } else if p.Max? && q.Max? {
      SplitAt(RenderQuorum(p), s, RenderQuorum(q), t);
    }
  }

  // ----- entries -----

  lemma QuoteEnds(a: string, s: string, b: string, t: string)
    requires '\"' !in a && '\"' !in b && a + ("\"" + s) == b + ("\"" + t)
    ensures a == b && s == t
  {
    var u, v := "\"" + s, "\"" + t;
    if |a| < |b| {
      ShorterStops(a, u, b, v);
    } else if |b| < |a| {
      ShorterStops(b, v, a, u);
    } else {
      SplitAt(a, u, b, v);
      assert s == u[1..] && t == v[1..];
    }
  }

  lemma EntryText(d: Entry, s: string)
    ensures RenderEntry(d) + s == "\"" + (d.0.text + ("\"" + (":" + (RenderQuorum(d.1) + s))))
  {
    hide RenderQuorum;
    assert "\":" == "\"" + ":";
  }

  lemma EntryRead(d: Entry, s: string, e: Entry, t: string)
    requires Plain(d.0) && Plain(e.0) && Delimited(s) && Delimited(t)
    requires RenderEntry(d) + s == RenderEntry(e) + t
    ensures d == e && s == t
  {
    var u, v := RenderQuorum(d.1) + s, RenderQuorum(e.1) + t;
    EntryText(d, s);
    EntryText(e, t);
    hide RenderEntry, RenderQuorum;
    SplitAt("\"", d.0.text + ("\"" + (":" + u)), "\"", e.0.text + ("\"" + (":" + v)));
    QuoteEnds(d.0.text, ":" + u, e.0.text, ":" + v);
    SplitAt(":", u, ":", v);
    QuorumRead(d.1, s, e.1, t);
  }

  ghost predicate PlainEntries(entries: seq<Entry>) {
    forall i :: 0 <= i < |entries| ==> Plain(entries[i].0)
  }

  lemma EntriesHead(a: seq<Entry>, s: string)
    ensures var text := JoinEntries(a) + ("}" + s);
            && text[0] == (if a == [] then '}' else '\"')
            && (a == [] ==> text == "}" + s)
  {
    if a != [] { assert JoinEntries(a)[0] == RenderEntry(a[0])[0]; }
  }

  /** What follows the first entry of a requirement. */
  function AfterEntry(a: seq<Entry>, s: string): string
    requires a != []
  {
    if |a| == 1 then "}" + s else "," + (JoinEntries(a[1..]) + ("}" + s))
  }

  lemma FirstOfEntries(a: seq<Entry>, s: string)
    requires a != []
    ensures JoinEntries(a) + ("}" + s) == RenderEntry(a[0]) + AfterEntry(a, s)
    ensures AfterEntry(a, s)[0] == if |a| == 1 then '}' else ','
  {
    hide RenderEntry;
    if |a| > 1 {
      Regroup(RenderEntry(a[0]), ",", JoinEntries(a[1..]), "}" + s);
    }
  }

  lemma Regroup(x: string, m: string, y: string, z: string)
    ensures x + m + y + z == x + (m + (y + z))
  {
  }

  /** The entries of a requirement and where they end. */
  lemma {:induction false} EntriesRead(a: seq<Entry>, s: string, b: seq<Entry>, t: string)
    requires PlainEntries(a) && PlainEntries(b)
    requires JoinEntries(a) + ("}" + s) == JoinEntries(b) + ("}" + t)
    ensures a == b && s == t
  {
    hide RenderEntry, JoinEntries, Plain;
    EntriesHead(a, s);
    EntriesHead(b, t);
    if a == [] {
      SplitAt("}", s, "}", t);
    } else {
      FirstOfEntries(a, s);
      FirstOfEntries(b, t);
      EntryRead(a[0], AfterEntry(a, s), b[0], AfterEntry(b, t));
      if |a| == 1 {
        SplitAt("}", s, "}", t);
      } else {
        SplitAt(",", JoinEntries(a[1..]) + ("}" + s), ",", JoinEntries(b[1..]) + ("}" + t));
        EntriesRead(a[1..], s, b[1..], t);
      }
      assert a == [a[0]] + a[1..] && b == [b[0]] + b[1..];
    }
  }

  lemma {:induction false} EntriesAtKeys(req: Requirement, keys: seq<Category>)
    requires forall k :: k in keys ==> k in req
    ensures |EntriesAt(req, keys)| == |keys|
    ensures forall i :: 0 <= i < |keys| ==> EntriesAt(req, keys)[i] == (keys[i], req[keys[i]])
  {
    if keys != [] { EntriesAtKeys(req, keys[1..]); }
  }

  lemma EntriesInclude(a: Requirement, b: Requirement)
    requires Entries(a) == Entries(b)
    ensures forall c :: c in a ==> c in b && a[c] == b[c]
  {
    hide EntriesAt, Plain;
    var ka, kb := Ascending(a.Keys), Ascending(b.Keys);
    EntriesAtKeys(a, ka);
    EntriesAtKeys(b, kb);
    forall c | c in a ensures c in b && a[c] == b[c] {
      assert c in ka;
      var i :| 0 <= i < |ka| && ka[i] == c;
      assert Entries(a)[i] == Entries(b)[i] == (kb[i], b[kb[i]]);
    }
  }

  /** A requirement is determined by its entries. */
  lemma EntriesDetermine(a: Requirement, b: Requirement)
    requires Entries(a) == Entries(b)
    ensures a == b
  {
    EntriesInclude(a, b);
    EntriesInclude(b, a);
  }

  // ----- requirements -----

  lemma Bracketed(open: char, body: string, close: char, s: string)
    ensures [open] + body + [close] + s == [open] + (body + ([close] + s))
  {
  }

  lemma RequirementRead(a: Requirement, s: string, b: Requirement, t: string)
    requires PlainRequirement(a) && PlainRequirement(b)
    requires RenderRequirement(a) + s == RenderRequirement(b) + t
    ensures a == b && s == t
  {
    hide JoinEntries, Ascending;
    var u, v := JoinEntries(Entries(a)) + ("}" + s), JoinEntries(Entries(b)) + ("}" + t);
    Bracketed('{', JoinEntries(Entries(a)), '}', s);
    Bracketed('{', JoinEntries(Entries(b)), '}', t);
    assert "{" + u == RenderRequirement(a) + s && "{" + v == RenderRequirement(b) + t;
    SplitAt("{", u, "{", v);
    EntriesAtKeys(a, Ascending(a.Keys));
    EntriesAtKeys(b, Ascending(b.Keys));
    EntriesRead(Entries(a), s, Entries(b), t);
    EntriesDetermine(a, b);
  }

  lemma ListHead(a: seq<Requirement>, s: string)
    ensures var text := JoinRequirements(a) + ("]" + s);
            && text[0] == (if a == [] then ']' else '{')
            && (a == [] ==> text == "]" + s)
  {
    if a != [] { assert JoinRequirements(a)[0] == RenderRequirement(a[0])[0]; }
  }

  /** What follows the first requirement of a list. */
  function AfterFirst(a: seq<Requirement>, s: string): string
    requires a != []
  {
    if |a| == 1 then "]" + s else "," + (JoinRequirements(a[1..]) + ("]" + s))
  }

  lemma FirstOfList(a: seq<Requirement>, s: string)
    requires a != []
    ensures JoinRequirements(a) + ("]" + s) == RenderRequirement(a[0]) + AfterFirst(a, s)
    ensures AfterFirst(a, s)[0] == if |a| == 1 then ']' else ','
  {
    hide RenderRequirement;
    if |a| > 1 {
      Regroup(RenderRequirement(a[0]), ",", JoinRequirements(a[1..]), "]" + s);
    }
  }

  lemma {:induction false} ListRead(a: seq<Requirement>, s: string, b: seq<Requirement>, t: string)
    requires (forall r :: r in a ==> PlainRequirement(r)) && (forall r :: r in b ==> PlainRequirement(r))
    requires JoinRequirements(a) + ("]" + s) == JoinRequirements(b) + ("]" + t)
    ensures a == b && s == t
  {
    hide RenderRequirement, PlainRequirement, JoinRequirements;
    ListHead(a, s);
    ListHead(b, t);
    if a == [] {
      SplitAt("]", s, "]", t);
    } else {
      FirstOfList(a, s);
      FirstOfList(b, t);
      RequirementRead(a[0], AfterFirst(a, s), b[0], AfterFirst(b, t));
      if |a| == 1 {
        SplitAt("]", s, "]", t);
      } else {
        SplitAt(",", JoinRequirements(a[1..]) + ("]" + s), ",", JoinRequirements(b[1..]) + ("]" + t));
        ListRead(a[1..], s, b[1..], t);
      }
      assert a == [a[0]] + a[1..] && b == [b[0]] + b[1..];
    }
  }

  /** The key from the end of `allOf` on. */
  function Tail(a: Strategy): string {
    ",\"oneOf\":[" + (JoinRequirements(a.oneOf) + ("]" + "}"))
  }

  lemma KeyText(a: Strategy)
    ensures CanonicalKey(a) == "{\"allOf\":[" + (JoinRequirements(a.allOf) + ("]" + Tail(a)))
  {
    hide JoinRequirements;
    var all, one := JoinRequirements(a.allOf), JoinRequirements(a.oneOf);
    Glue("{\"allOf\":", all, ",\"oneOf\":", one);
    assert "{\"allOf\":" + "[" == "{\"allOf\":[" && ",\"oneOf\":" + "[" == ",\"oneOf\":[";
  }

  lemma Glue(h: string, all: string, m: string, one: string)
    ensures h + ("[" + all + "]") + m + ("[" + one + "]") + "}" ==
            (h + "[") + (all + ("]" + ((m + "[") + (one + ("]" + "}")))))
  {
  }

  /** Two strategies with the same key are the same strategy. */
  lemma KeyDetermines(a: Strategy, b: Strategy)
    requires PlainStrategy(a) && PlainStrategy(b) && CanonicalKey(a) == CanonicalKey(b)
    ensures a == b
  {
    hide JoinRequirements, PlainRequirement;
    var ua, ub := Tail(a), Tail(b);
    KeyText(a);
    KeyText(b);
    SplitAt("{\"allOf\":[", JoinRequirements(a.allOf) + ("]" + ua),
            "{\"allOf\":[", JoinRequirements(b.allOf) + ("]" + ub));
    ListRead(a.allOf, ua, b.allOf, ub);
    SplitAt(",\"oneOf\":[", JoinRequirements(a.oneOf) + ("]" + "}"),
            ",\"oneOf\":[", JoinRequirements(b.oneOf) + ("]" + "}"));
    ListRead(a.oneOf, "}", b.oneOf, "}");
  }

  predicate KnownNames(strategy: Strategy) {
    forall r :: r in strategy.allOf + strategy.oneOf ==> forall c :: c in r ==> c in CATEGORIES + [ANY]
  }

  lemma KnownIsPlain(strategy: Strategy)
    requires KnownNames(strategy)
    ensures PlainStrategy(strategy)
  {
    NamesArePlain();
    hide Plain;
    forall r | r in strategy.allOf + strategy.oneOf ensures PlainRequirement(r) {}
  }

  lemma NamesArePlain()
    ensures forall c :: c in CATEGORIES + [ANY] ==> Plain(c)
  {
    assert Plain(INTERNAL) && Plain(DEDICATED_EXTERNAL) && Plain(SHARED_EXTERNAL) && Plain(ANY);
    hide Plain;
  }

  /** In particular over the four names a validated strategy may use. */
  lemma KeyInjective(a: Strategy, b: Strategy)
    requires KnownNames(a) && KnownNames(b)
    ensures CanonicalKey(a) == CanonicalKey(b) <==> a == b
  {
    KnownIsPlain(a);
    KnownIsPlain(b);
    hide KnownNames, PlainStrategy, CanonicalKey;
    if CanonicalKey(a) == CanonicalKey(b) { KeyDetermines(a, b); }
  }

  // ----- the text -----

  lemma TwoAscending(a: Category, b: Category)
    requires Less(a, b)
    ensures Ascending({a, b}) == [a, b]
  {
    hide TextLess;
    TextAsymmetric(a.text, b.text);
    var r := Ascending({a, b});
    AscendingSorted({a, b});
    assert r[0] in {a, b} && r[1] in {a, b} && Less(r[0], r[1]);
    TextAsymmetric(r[0].text, r[1].text);
  }

  lemma OneAscending(a: Category)
    ensures Ascending({a}) == [a] && Ascending({}) == []
  {
    var r := Ascending({a});
    assert r[0] in {a};
  }

  lemma NoEntries()
    ensures RenderRequirement(map[]) == "{}"
  {
    OneAscending(ANY);
  }

  lemma OneEntry(a: Category, p: Quorum)
    ensures RenderRequirement(map[a := p]) == "{" + RenderEntry((a, p)) + "}"
  {
    hide RenderEntry;
    OneAscending(a);
    assert map[a := p].Keys == {a};
    EntriesAtKeys(map[a := p], [a]);
  }

  /** A requirement's text has its categories in text order. */
  lemma TwoEntries(a: Category, p: Quorum, b: Category, q: Quorum)
    requires Less(a, b)
    ensures RenderRequirement(map[b := q, a := p]) == "{" + (RenderEntry((a, p)) + "," + RenderEntry((b, q))) + "}"
  {
    hide RenderEntry, TextLess, Ascending;
    var req: Requirement := map[b := q, a := p];
    TextAsymmetric(a.text, b.text);
    TwoAscending(a, b);
    assert req.Keys == {a, b};
    EntriesAtKeys(req, [a, b]);
    assert Entries(req) == [(a, p), (b, q)];
    JoinTwo((a, p), (b, q));
    hide JoinEntries;
  }

  lemma JoinTwo(d: Entry, e: Entry)
    ensures JoinEntries([d, e]) == RenderEntry(d) + "," + RenderEntry(e)
  {
    hide RenderEntry;
    assert [d, e][1..] == [e];
  }

  /** A category is quoted, a count is its numeral, and `max` is a quoted word. */
  lemma EntryTexts(a: Category, n: nat)
    requires n <= U64_MAX
    ensures RenderEntry((a, Count(n))) == "\"" + a.text + "\":" + Decimal(n)
    ensures RenderEntry((a, Max)) == "\"" + a.text + "\":\"max\""
  {
    assert "\"" + a.text + "\":" + "\"max\"" == "\"" + a.text + "\":\"max\"";
  }

  lemma SampleCounts()
    ensures Decimal(12) == "12" && Decimal(3) == "3"
  {
  }

  lemma SampleAny()
    ensures RenderEntry((ANY, Count(12))) == "\"any\":12"
  {
    hide RenderEntry, Decimal;
    SampleCounts();
    EntryTexts(ANY, 12);
  }

  lemma SampleInternal()
    ensures RenderEntry((INTERNAL, Max)) == "\"internal\":\"max\""
  {
    hide RenderEntry, Decimal;
    EntryTexts(INTERNAL, 12);
  }

  lemma SampleShared()
    ensures RenderEntry((SHARED_EXTERNAL, Count(3))) == "\"shared_external\":3"
  {
    hide RenderEntry, Decimal;
    SampleCounts();
    EntryTexts(SHARED_EXTERNAL, 3);
  }

  lemma AnyIsFirst()
    ensures Less(ANY, INTERNAL)
  {
    assert ANY.text[0] == 'a' && INTERNAL.text[0] == 'i';
  }

  lemma SampleOfTwo()
    ensures RenderRequirement(map[INTERNAL := Max, ANY := Count(12)]) == "{\"any\":12,\"internal\":\"max\"}"
  {
    hide RenderEntry, RenderRequirement, Less;
    AnyIsFirst();
    SampleAny();
    SampleInternal();
    TwoEntries(ANY, Count(12), INTERNAL, Max);
  }

  lemma SampleOfOne()
    ensures RenderRequirement(map[SHARED_EXTERNAL := Count(3)]) == "{\"shared_external\":3}"
  {
    hide RenderEntry, RenderRequirement;
    SampleShared();
    OneEntry(SHARED_EXTERNAL, Count(3));
  }

  lemma ListOfTwo(a: Requirement, b: Requirement)
    ensures RenderList([a, b]) == "[" + (RenderRequirement(a) + "," + RenderRequirement(b)) + "]"
  {
    hide RenderRequirement;
    ListOfOne(b);
    var reqs := [a, b];
    assert reqs[1..] == [b];
    assert JoinRequirements(reqs) == RenderRequirement(a) + "," + JoinRequirements([b]);
  }

  lemma ListOfOne(a: Requirement)
    ensures JoinRequirements([a]) == RenderRequirement(a) && RenderList([a]) == "[" + RenderRequirement(a) + "]"
  {
    hide RenderRequirement;
  }

  lemma SampleAllOf()
    ensures RenderList([map[INTERNAL := Max, ANY := Count(12)], map[]])
            == "[" + ("{\"any\":12,\"internal\":\"max\"}" + "," + "{}") + "]"
  {
    hide RenderRequirement, RenderList;
    SampleOfTwo();
    NoEntries();
    ListOfTwo(map[INTERNAL := Max, ANY := Count(12)], map[]);
  }

  lemma SampleOneOf()
    ensures RenderList([map[SHARED_EXTERNAL := Count(3)]]) == "[{\"shared_external\":3}]"
  {
    hide RenderRequirement, RenderList;
    SampleOfOne();
    ListOfOne(map[SHARED_EXTERNAL := Count(3)]);
  }

  /** The key of a strategy that uses each part of the notation. */
  lemma SampleKey()
    ensures CanonicalKey(Strategy([map[INTERNAL := Max, ANY := Count(12)], map[]], [map[SHARED_EXTERNAL := Count(3)]]))
            == "{\"allOf\":" + ("[" + ("{\"any\":12,\"internal\":\"max\"}" + "," + "{}") + "]")
               + ",\"oneOf\":" + "[{\"shared_external\":3}]" + "}"
  {
    hide RenderRequirement, RenderList;
    SampleAllOf();
    SampleOneOf();
  }
}
