/** Whom to dial, and how many of them at first: the selection of `order_providers_for_quorum`,
    `prioritize_minimal_quorum`, `min_providers_for_strategy` and the dispatch that joins them. */
module Dispatch {
  import opened TextOrder
  import opened Quorum
  import opened Matching
  import opened Selection
  import opened Dealing
  import opened Wrappers

  // ----- moving a selection to the front -----

  /** The providers whose mark is `want`, in order. */
  function Pick(output: seq<Provider>, selected: seq<bool>, want: bool): seq<Provider>
    requires |selected| == |output|
  {
    if output == [] then []
    else
      var n := |output| - 1;
      Pick(output[..n], selected[..n], want) + if selected[n] == want then [output[n]] else []
  }

  function SelectedFirst(output: seq<Provider>, selected: seq<bool>): seq<Provider>
    requires |selected| == |output|
  {
    Pick(output, selected, true) + Pick(output, selected, false)
  }

  lemma SelectedFirstPermutes(output: seq<Provider>, selected: seq<bool>)
    requires |selected| == |output|
    ensures multiset(SelectedFirst(output, selected)) == multiset(output)
  {
    forall p ensures multiset(SelectedFirst(output, selected))[p] == multiset(output)[p] {
      PickedOrNot(output, selected, p);
    }
    hide Pick;
  }

  lemma {:induction false} PickedOrNot(output: seq<Provider>, selected: seq<bool>, p: Provider)
    requires |selected| == |output|
    ensures multiset(Pick(output, selected, true))[p] + multiset(Pick(output, selected, false))[p]
            == multiset(output)[p]
  {
    hide Pick;
    if output == [] {
      PickNobody(selected);
    } else {
      var n := |output| - 1;
      PickedOrNot(output[..n], selected[..n], p);
      PickCounts(output, selected, true, p);
      PickCounts(output, selected, false, p);
      CountLast(output, p);
    }
  }

  lemma PickNobody(selected: seq<bool>)
    requires selected == []
    ensures Pick([], selected, true) == [] && Pick([], selected, false) == []
  {
  }

  lemma CountLast(output: seq<Provider>, p: Provider)
    requires output != []
    ensures var n := |output| - 1;
            multiset(output)[p] == multiset(output[..n])[p] + if output[n] == p then 1 else 0
  {
    var n := |output| - 1;
    assert output == output[..n] + [output[n]];
    CountNext(output[..n], output[n], p);
  }

  lemma PickCounts(output: seq<Provider>, selected: seq<bool>, want: bool, p: Provider)
    requires |selected| == |output| && output != []
    ensures var n := |output| - 1;
            multiset(Pick(output, selected, want))[p] ==
            multiset(Pick(output[..n], selected[..n], want))[p] + if selected[n] == want && output[n] == p then 1 else 0
  {
    var n := |output| - 1;
    CountNext(Pick(output[..n], selected[..n], want), output[n], p);
  }

  lemma CountNext(providers: seq<Provider>, last: Provider, p: Provider)
    ensures multiset(providers + [last])[p] == multiset(providers)[p] + if last == p then 1 else 0
  {
  }

  /** Everyone in the list, as a set of listings. */
  function Voices(providers: seq<Provider>): set<Listing> {
    set p | p in providers :: Key(p)
  }

  lemma IndicesVoices(providers: seq<Provider>, n: nat)
    requires n <= |providers|
    ensures Keys(providers, Indices(n)) == Voices(providers[..n])
  {
    forall l | l in Voices(providers[..n]) ensures l in Keys(providers, Indices(n)) {
      var p :| p in providers[..n] && Key(p) == l;
      var i :| 0 <= i < n && providers[..n][i] == p;
      assert i in Indices(n);
    }
    forall l | l in Keys(providers, Indices(n)) ensures l in Voices(providers[..n]) {
      var i: nat :| i in Indices(n) && i < |providers| && Key(providers[i]) == l;
      assert providers[i] in providers[..n];
    }
  }

  lemma {:induction false} PickVoices(output: seq<Provider>, selected: seq<bool>)
    requires |selected| == |output|
    ensures |Pick(output, selected, true)| == |Chosen(selected)|
    ensures Voices(Pick(output, selected, true)) == Keys(output, Chosen(selected))
  {
    if output == [] {
      assert Chosen(selected) == {} && Keys(output, Chosen(selected)) == {};
    } else {
      var n := |output| - 1;
      PickVoices(output[..n], selected[..n]);
      assert Keys(output, Chosen(selected[..n])) == Keys(output[..n], Chosen(selected[..n]));
      ChosenNext(selected);
      if selected[n] {
        KeysAdd(output, Chosen(selected[..n]), n);
        VoicesNext(Pick(output[..n], selected[..n], true), output[n]);
      }
      hide Keys, Voices, Chosen;
    }
  }

  lemma ChosenNext(selected: seq<bool>)
    requires selected != []
    ensures var n := |selected| - 1;
            Chosen(selected) == Chosen(selected[..n]) + (if selected[n] then {n} else {}) && n !in Chosen(selected[..n])
  {
  }

  lemma VoicesNext(providers: seq<Provider>, p: Provider)
    ensures Voices(providers + [p]) == Voices(providers) + {Key(p)}
  {
  }

  // ----- it is a stable partition -----

  function HowMany(selected: seq<bool>, want: bool): nat {
    if selected == [] then 0
    else HowMany(selected[..|selected| - 1], want) + if selected[|selected| - 1] == want then 1 else 0
  }

  /** Where the provider at `i` goes: after the selected ones before it, or, when it is not
      selected, after all of those and the others before it. */
  function Place(selected: seq<bool>, i: nat): nat
    requires i < |selected|
  {
    if selected[i] then HowMany(selected[..i], true) else HowMany(selected, true) + HowMany(selected[..i], false)
  }

  lemma PickSize(output: seq<Provider>, selected: seq<bool>, want: bool)
    requires |selected| == |output|
    ensures |Pick(output, selected, want)| == HowMany(selected, want)
  {
    if output != [] { PickSize(output[..|output| - 1], selected[..|output| - 1], want); }
  }

  lemma {:induction false} PickAt(output: seq<Provider>, selected: seq<bool>, want: bool, i: nat)
    requires |selected| == |output| && i < |output| && selected[i] == want
    ensures HowMany(selected[..i], want) < |Pick(output, selected, want)|
    ensures Pick(output, selected, want)[HowMany(selected[..i], want)] == output[i]
  {
    var n := |output| - 1;
    if i < n {
      PickAt(output[..n], selected[..n], want, i);
      assert selected[..n][..i] == selected[..i];
      hide HowMany;
    } else {
      PickSize(output[..n], selected[..n], want);
      hide HowMany;
    }
  }

  /** Every provider goes to its place. */
  lemma SelectedFirstPlaces(output: seq<Provider>, selected: seq<bool>, i: nat)
    requires |selected| == |output| && i < |output|
    ensures Place(selected, i) < |SelectedFirst(output, selected)|
    ensures SelectedFirst(output, selected)[Place(selected, i)] == output[i]
  {
    PickAt(output, selected, selected[i], i);
    PickSize(output, selected, true);
    hide Pick, HowMany;
  }

  lemma {:induction false} MarksBetween(selected: seq<bool>, want: bool, i: nat, j: nat)
    requires i < j <= |selected|
    ensures HowMany(selected[..i], want) + (if selected[i] == want then 1 else 0) <= HowMany(selected[..j], want)
  {
    assert selected[..j][..j - 1] == selected[..j - 1];
    if i < j - 1 { MarksBetween(selected, want, i, j - 1); }
  }

  /** The places keep the order of the selected and of the others, and put the former first. */
  lemma PlacesInOrder(selected: seq<bool>, i: nat, j: nat)
    requires i < j < |selected|
    ensures Place(selected, i) != Place(selected, j)
    ensures Place(selected, i) < Place(selected, j) <==> selected[i] || !selected[j]
  {
    assert selected[..|selected|] == selected;
    MarksBetween(selected, true, i, j);
    MarksBetween(selected, true, j, |selected|);
    MarksBetween(selected, false, i, j);
    MarksBetween(selected, true, i, |selected|);
  }

  /** Once moved to the front, the selection is what the first so many providers vote with. */
  lemma FrontVoices(output: seq<Provider>, selected: seq<bool>)
    requires |selected| == |output|
    ensures var n := |Chosen(selected)|;
            n <= |output| && Keys(SelectedFirst(output, selected), Indices(n)) == Keys(output, Chosen(selected))
  {
    var front := Pick(output, selected, true);
    PickVoices(output, selected);
    SelectedFirstPermutes(output, selected);
    SameLength(SelectedFirst(output, selected), output);
    IndicesVoices(SelectedFirst(output, selected), |front|);
    assert SelectedFirst(output, selected)[..|front|] == front;
  }

  lemma SameLength(a: seq<Provider>, b: seq<Provider>)
    requires multiset(a) == multiset(b)
    ensures |a| == |b| && Voices(a) == Voices(b)
  {
    assert |multiset(a)| == |a| && |multiset(b)| == |b|;
    assert forall p :: p in a <==> p in multiset(a);
    assert forall p :: p in b <==> p in multiset(b);
  }

  // ----- the cheapest alternative -----

  const I64_MAX: int := 0x7FFF_FFFF_FFFF_FFFF

  /** `i64::saturating_add`. */
  function SatAddI64(a: int, b: int): int {
    if a + b > I64_MAX then I64_MAX else if a + b < -I64_MAX - 1 then -I64_MAX - 1 else a + b
  }

  function RankSum(output: seq<Provider>, chosen: set<nat>, n: nat): int
    requires n <= |output|
  {
    if n == 0 then 0
    else
      var before := RankSum(output, chosen, n - 1);
      if n - 1 in chosen then SatAddI64(before, output[n - 1].rank) else before
  }

  function TotalRank(providers: seq<Provider>): int {
    if providers == [] then 0 else TotalRank(providers[..|providers| - 1]) + providers[|providers| - 1].rank
  }

  ghost predicate FitsI64(n: int) {
    -I64_MAX - 1 <= n <= I64_MAX
  }

  /** The nearest number that fits. */
  lemma SatAddI64Means(a: int, b: int, n: int)
    requires FitsI64(n)
    ensures FitsI64(SatAddI64(a, b))
    ensures a + b <= SatAddI64(a, b) <= n || n <= SatAddI64(a, b) <= a + b || SatAddI64(a, b) == a + b
  {
  }

  lemma TotalNext(providers: seq<Provider>, last: Provider)
    ensures TotalRank(providers + [last]) == TotalRank(providers) + last.rank
  {
    assert (providers + [last])[..|providers|] == providers;
  }

  /** While every partial sum fits, the saturating sum is the total of the selected ranks. */
  lemma {:induction false} RankSumIsTotal(output: seq<Provider>, selected: seq<bool>, n: nat)
    requires |selected| == |output| && n <= |output|
    requires forall m :: 0 <= m <= n ==> FitsI64(TotalRank(Pick(output[..m], selected[..m], true)))
    ensures RankSum(output, Chosen(selected), n) == TotalRank(Pick(output[..n], selected[..n], true))
  {
    if n > 0 {
      RankSumIsTotal(output, selected, n - 1);
      assert output[..n][..n - 1] == output[..n - 1] && selected[..n][..n - 1] == selected[..n - 1];
      assert FitsI64(TotalRank(Pick(output[..n], selected[..n], true)));
      var before := Pick(output[..n - 1], selected[..n - 1], true);
      TotalNext(before, output[n - 1]);
      assert Pick(output[..n], selected[..n], true) == if selected[n - 1] then before + [output[n - 1]] else before;
      assert n - 1 in Chosen(selected) <==> selected[n - 1];
    }
  }

  lemma {:induction false} RanksAreSmall(providers: seq<Provider>)
    requires forall p :: p in providers ==> -0x8000_0000 <= p.rank < 0x8000_0000
    ensures -0x8000_0000 * |providers| <= TotalRank(providers) <= 0x8000_0000 * |providers|
  {
    if providers != [] {
      var n := |providers| - 1;
      assert providers == providers[..n] + [providers[n]] && providers[n] in providers;
      RanksAreSmall(providers[..n]);
    }
  }

  lemma {:induction false} PickFrom(output: seq<Provider>, selected: seq<bool>, want: bool)
    requires |selected| == |output|
    ensures |Pick(output, selected, want)| <= |output|
    ensures forall p :: p in Pick(output, selected, want) ==> p in output
  {
    if output != [] {
      PickFrom(output[..|output| - 1], selected[..|output| - 1], want);
    }
  }

  /** Ranks of 32 bits never saturate the sum of fewer than 2^32 providers. */
  lemma RanksAreSummed(output: seq<Provider>, selected: seq<bool>)
    requires |selected| == |output| < 0x1_0000_0000
    requires forall p :: p in output ==> -0x8000_0000 <= p.rank < 0x8000_0000
    ensures RankSum(output, Chosen(selected), |output|) == TotalRank(Pick(output, selected, true))
  {
    forall m | 0 <= m <= |output| ensures FitsI64(TotalRank(Pick(output[..m], selected[..m], true))) {
      PickFrom(output[..m], selected[..m], true);
      RanksAreSmall(Pick(output[..m], selected[..m], true));
    }
    hide Pick, RankSum, TotalRank;
    RankSumIsTotal(output, selected, |output|);
    assert output[..|output|] == output && selected[..|output|] == selected;
  }

  /** The strategy with alternative `k` alone. */
  function Only(strategy: Strategy, k: nat): Strategy
    requires k < |strategy.oneOf|
  {
    Strategy(strategy.allOf, [strategy.oneOf[k]])
  }

  lemma OnlyAsks(listings: set<Listing>, strategy: Strategy, k: nat)
    requires k < |strategy.oneOf|
    ensures Asked(Only(strategy, k), 0) == Asked(strategy, k)
    ensures Satisfied(listings, Only(strategy, k)) <==> Meets(listings, Asked(strategy, k))
  {
    assert Alternatives(Only(strategy, k)) == [strategy.oneOf[k]];
    assert Asked(Only(strategy, k), 0) == Asked(strategy, k);
  }

  /** Alternative `k` can be met by all of `base`. */
  ghost predicate Meetable(base: seq<Provider>, strategy: Strategy, k: nat) {
    k < |strategy.oneOf| && Satisfied(Keys(base, Indices(|base|)), Only(strategy, k))
  }

  ghost function CountOf(base: seq<Provider>, strategy: Strategy, k: nat): nat
    requires k < |strategy.oneOf|
  {
    |Kept(base, Only(strategy, k))|
  }

  ghost function RankOf(base: seq<Provider>, strategy: Strategy, k: nat): int
    requires k < |strategy.oneOf|
  {
    RankSum(base, Kept(base, Only(strategy, k)), |base|)
  }

  /** `k` beats the meetable alternatives before `end`: fewest providers, then lowest rank
      sum, then first in the strategy. */
  ghost predicate Best(base: seq<Provider>, strategy: Strategy, k: nat, end: nat) {
    && k < end && Meetable(base, strategy, k)
    && forall j :: 0 <= j < end && Meetable(base, strategy, j) ==> NoBetter(base, strategy, k, j)
  }

  ghost predicate NoBetter(base: seq<Provider>, strategy: Strategy, k: nat, j: nat)
    requires k < |strategy.oneOf| && j < |strategy.oneOf|
  {
    || CountOf(base, strategy, k) < CountOf(base, strategy, j)
    || (CountOf(base, strategy, k) == CountOf(base, strategy, j)
        && (RankOf(base, strategy, k) < RankOf(base, strategy, j)
            || (RankOf(base, strategy, k) == RankOf(base, strategy, j) && k <= j)))
  }

  ghost predicate NoneMeetable(base: seq<Provider>, strategy: Strategy, end: nat) {
    forall j :: 0 <= j < end ==> !Meetable(base, strategy, j)
  }

  method Tally(output: seq<Provider>, selected: seq<bool>) returns (count: nat, rank: int)
    requires |selected| == |output|
    ensures count == |Chosen(selected)| && rank == RankSum(output, Chosen(selected), |output|)
  {
    count, rank := 0, 0;
    assert Chosen(selected[..0]) == {};
    for i := 0 to |output|
      invariant count == |Chosen(selected[..i])| && rank == RankSum(output, Chosen(selected), i)
    {
      if selected[i] {
        assert Chosen(selected[..i + 1]) == Chosen(selected[..i]) + {i};
        count := count + 1;
        rank := SatAddI64(rank, output[i].rank);
      } else {
        assert Chosen(selected[..i + 1]) == Chosen(selected[..i]);
      }
    }
    assert selected[..|output|] == selected;
  }

  lemma BestSoFar(base: seq<Provider>, strategy: Strategy, k: nat, i: nat)
    requires i < |strategy.oneOf| && Best(base, strategy, k, i)
    ensures !Meetable(base, strategy, i) ==> Best(base, strategy, k, i + 1)
    ensures Meetable(base, strategy, i) && NoBetter(base, strategy, k, i) ==> Best(base, strategy, k, i + 1)
    ensures Meetable(base, strategy, i) && !NoBetter(base, strategy, k, i) ==> Best(base, strategy, i, i + 1)
  {
    hide CountOf, RankOf, Satisfied;
  }

  /** The loop over `oneOf`: keeps the selection of the best alternative seen. */
  method BestSelection(output: seq<Provider>, strategy: Strategy) returns (best: Option<seq<bool>>, ghost k: nat)
    ensures best.None? ==> NoneMeetable(output, strategy, |strategy.oneOf|)
    ensures best.Some? ==> Best(output, strategy, k, |strategy.oneOf|)
                           && |best.value| == |output| && Chosen(best.value) == Kept(output, Only(strategy, k))
  {
    hide Satisfied, Irredundant, Kept, Only;
    best, k := None, 0;
    var bestCount, bestRank := 0, 0;
    for i := 0 to |strategy.oneOf|
      invariant best.None? ==> NoneMeetable(output, strategy, i)
      invariant best.Some? ==>
        && Best(output, strategy, k, i) && |best.value| == |output|
        && Chosen(best.value) == Kept(output, Only(strategy, k))
        && bestCount == CountOf(output, strategy, k) && bestRank == RankOf(output, strategy, k)
    {
      var selection := MinimalSatisfyingSelection(output, Only(strategy, i));
      if selection.None? {
        if best.Some? { BestSoFar(output, strategy, k, i); }
        continue;
      }
      var count, rank := Tally(output, selection.value);
      if best.Some? { BestSoFar(output, strategy, k, i); }
      if best.None? || count < bestCount || (count == bestCount && rank < bestRank) {
        best, k, bestCount, bestRank := selection, i, count, rank;
      }
    }
  }

  // ----- the orders -----

  /** `base` with the providers of the best alternative moved to the front. */
  ghost predicate Promoted(base: seq<Provider>, strategy: Strategy, output: seq<Provider>) {
    || (NoneMeetable(base, strategy, |strategy.oneOf|) && output == base)
    || (exists k, selected ::
          && Best(base, strategy, k, |strategy.oneOf|)
          && |selected| == |base| && Chosen(selected) == Kept(base, Only(strategy, k))
          && output == SelectedFirst(base, selected))
  }

  /** The dealing order, with the best alternative in front when there are alternatives. */
  ghost predicate QuorumOrder(providers: seq<Provider>, strategy: Strategy, output: seq<Provider>) {
    exists base ::
      && InDealingOrder(providers, strategy, base)
      && if strategy.oneOf == [] then output == base else Promoted(base, strategy, output)
  }

  method OrderProvidersForQuorum(providers: seq<Provider>, strategy: Strategy) returns (output: seq<Provider>)
    ensures QuorumOrder(providers, strategy, output)
    ensures multiset(output) == multiset(Known(providers))
  {
    hide Satisfied, Kept, Best, NoneMeetable, InDealingOrder;
    output := DealCategories(providers, strategy);
    DealingPermutes(providers, strategy, output);
    if strategy.oneOf == [] {
      return;
    }
    ghost var base := output;
    var best, k := BestSelection(output, strategy);
    match best {
      case None =>
      case Some(selected) =>
        SelectedFirstPermutes(output, selected);
        output := SelectedFirst(output, selected);
        assert Promoted(base, strategy, output);
    }
  }

  /** The order handed on, with the greedy selection in front when `allOf` stands alone. */
  method PrioritizeMinimalQuorum(ordered: seq<Provider>, strategy: Strategy) returns (output: seq<Provider>)
    ensures strategy.oneOf != [] || !Satisfied(Keys(ordered, Indices(|ordered|)), strategy) ==> output == ordered
    ensures strategy.oneOf == [] && Satisfied(Keys(ordered, Indices(|ordered|)), strategy) ==>
              exists selected :: |selected| == |ordered| && Chosen(selected) == Kept(ordered, strategy)
                                 && output == SelectedFirst(ordered, selected)
    ensures multiset(output) == multiset(ordered)
  {
    hide Satisfied, Irredundant, Kept;
    output := ordered;
    if strategy.oneOf != [] {
      return;
    }
    var selection := MinimalSatisfyingSelection(ordered, strategy);
    if selection.Some? {
      SelectedFirstPermutes(ordered, selection.value);
      output := SelectedFirst(ordered, selection.value);
    }
  }

  /** The least number of providers, from the front, that satisfies the strategy; all of
      them when none does. At least one provider is counted when there is one. */
  method MinProvidersForStrategy(providers: seq<Provider>, strategy: Strategy) returns (n: nat)
    ensures n <= |providers| && (providers != [] ==> n > 0)
    ensures forall m :: 0 < m < n ==> !Satisfied(Keys(providers, Indices(m)), strategy)
    ensures n < |providers| ==> Satisfied(Keys(providers, Indices(n)), strategy)
  {
    hide Satisfied;
    var votes: Pool := map[];
    assert Listings(votes) == Keys(providers, Indices(0));
    for index := 0 to |providers|
      invariant Listings(votes) == Keys(providers, Indices(index))
      invariant forall m :: 0 < m <= index ==> !Satisfied(Keys(providers, Indices(m)), strategy)
    {
      var p := providers[index];
      KeysAdd(providers, Indices(index), index);
      InsertLists(votes, p.category, p.entity);
      votes := Insert(votes, p.category, p.entity);
      var enough := IsStrategySatisfiable(votes, strategy);
      if enough {
        return index + 1;
      }
    }
    return |providers|;
  }

  // ----- the fewest providers that can satisfy -----

  /** `n` is the least need of the alternatives that `listings` can meet. */
  ghost predicate Fewest(listings: set<Listing>, strategy: Strategy, n: nat) {
    && (exists k ::
        0 <= k < |Alternatives(strategy)| && Meets(listings, Asked(strategy, k)) && n == Need(Asked(strategy, k)))
    && forall k :: 0 <= k < |Alternatives(strategy)| && Meets(listings, Asked(strategy, k)) ==>
       n <= Need(Asked(strategy, k))
  }

  /** Fewer providers than the fewest never satisfy. */
  lemma FewestIsNeeded(providers: seq<Provider>, chosen: set<nat>, listings: set<Listing>, strategy: Strategy, n: nat)
    requires Fewest(listings, strategy, n) && Keys(providers, chosen) <= listings
    requires Satisfied(Keys(providers, chosen), strategy)
    ensures n <= |chosen|
  {
    var k := SatisfiedSize(providers, chosen, strategy);
    MeetsMonotone(Keys(providers, chosen), listings, Asked(strategy, k));
  }

  /** An alternative's greedy selection has exactly as many providers as it needs. */
  lemma CountIsNeed(base: seq<Provider>, strategy: Strategy, k: nat)
    requires Meetable(base, strategy, k)
    ensures Meets(Keys(base, Indices(|base|)), Asked(strategy, k))
    ensures CountOf(base, strategy, k) == Need(Asked(strategy, k))
    ensures Meets(Keys(base, Kept(base, Only(strategy, k))), Asked(strategy, k))
  {
    var only := Only(strategy, k);
    OnlyAsks(Keys(base, Indices(|base|)), strategy, k);
    KeptIsIrredundant(base, only);
    var j := IrredundantSize(base, Kept(base, only), only);
    OnlyAsks(Keys(base, Kept(base, only)), strategy, k);
    assert j == 0;
  }

  lemma BestIsFewest(base: seq<Provider>, strategy: Strategy, k: nat)
    requires Best(base, strategy, k, |strategy.oneOf|)
    ensures Fewest(Keys(base, Indices(|base|)), strategy, CountOf(base, strategy, k))
  {
    var all := Keys(base, Indices(|base|));
    assert Alternatives(strategy) == strategy.oneOf;
    CountIsNeed(base, strategy, k);
    forall j | 0 <= j < |Alternatives(strategy)| && Meets(all, Asked(strategy, j))
      ensures CountOf(base, strategy, k) <= Need(Asked(strategy, j))
    {
      OnlyAsks(all, strategy, j);
      assert Meetable(base, strategy, j);
      CountIsNeed(base, strategy, j);
      assert NoBetter(base, strategy, k, j);
    }
  }

  /** `output` starts with a satisfying set of the fewest providers that `listings` allows. */
  ghost predicate StartsFewest(output: seq<Provider>, listings: set<Listing>, strategy: Strategy, n: nat) {
    && n <= |output| && Keys(output, Indices(|output|)) == listings
    && Fewest(listings, strategy, n)
    && Satisfied(Keys(output, Indices(n)), strategy)
  }

  lemma FrontIsKept(base: seq<Provider>, selected: seq<bool>, strategy: Strategy, k: nat)
    requires |selected| == |base| && k < |Alternatives(strategy)|
    requires Fewest(Keys(base, Indices(|base|)), strategy, |Chosen(selected)|)
    requires Meets(Keys(base, Chosen(selected)), Asked(strategy, k))
    ensures StartsFewest(SelectedFirst(base, selected), Keys(base, Indices(|base|)), strategy, |Chosen(selected)|)
  {
    hide Meets, Fewest;
    var output := SelectedFirst(base, selected);
    FrontVoices(base, selected);
    SelectedFirstPermutes(base, selected);
    SameVoices(output, base);
  }

  lemma SameVoices(a: seq<Provider>, b: seq<Provider>)
    requires multiset(a) == multiset(b)
    ensures |a| == |b| && Keys(a, Indices(|a|)) == Keys(b, Indices(|b|))
  {
    SameLength(a, b);
    IndicesVoices(a, |a|);
    IndicesVoices(b, |b|);
    assert a[..|a|] == a && b[..|b|] == b;
  }

  /** With alternatives to choose from, the promoted order starts with the fewest providers. */
  lemma PromotedStartsFewest(base: seq<Provider>, strategy: Strategy, output: seq<Provider>) returns (n: nat)
    requires strategy.oneOf != [] && Promoted(base, strategy, output)
    requires Satisfied(Keys(base, Indices(|base|)), strategy)
    ensures StartsFewest(output, Keys(base, Indices(|base|)), strategy, n)
  {
    var all := Keys(base, Indices(|base|));
    var j :| 0 <= j < |Alternatives(strategy)| && Meets(all, Asked(strategy, j));
    OnlyAsks(all, strategy, j);
    assert Meetable(base, strategy, j);
    var k, selected :| Best(base, strategy, k, |strategy.oneOf|)
                       && |selected| == |base| && Chosen(selected) == Kept(base, Only(strategy, k))
                       && output == SelectedFirst(base, selected);
    n := CountOf(base, strategy, k);
    BestIsFewest(base, strategy, k);
    CountIsNeed(base, strategy, k);
    FrontIsKept(base, selected, strategy, k);
  }

  lemma KeysOfAll(providers: seq<Provider>, chosen: set<nat>)
    ensures Keys(providers, chosen) <= Keys(providers, Indices(|providers|))
  {
  }

  /** With `allOf` alone, so does the prioritized order. */
  lemma PrioritizedStartsFewest(ordered: seq<Provider>, strategy: Strategy, selected: seq<bool>)
    requires strategy.oneOf == [] && Satisfied(Keys(ordered, Indices(|ordered|)), strategy)
    requires |selected| == |ordered| && Chosen(selected) == Kept(ordered, strategy)
    ensures StartsFewest(SelectedFirst(ordered, selected), Keys(ordered, Indices(|ordered|)), strategy,
                         |Chosen(selected)|)
  {
    hide Satisfied, Meets, Irredundant, Kept, Keys;
    KeptIsIrredundant(ordered, strategy);
    var k := IrredundantSize(ordered, Chosen(selected), strategy);
    assert Keys(ordered, Chosen(selected)) <= Keys(ordered, Indices(|ordered|))
      by { KeysOfAll(ordered, Chosen(selected)); }
    MeetsMonotone(Keys(ordered, Chosen(selected)), Keys(ordered, Indices(|ordered|)), Asked(strategy, k));
    FrontIsKept(ordered, selected, strategy, k);
  }

  /** The least satisfying prefix of such an order is exactly the fewest providers, and one
      when none at all would do. */
  lemma WaveIsFewest(output: seq<Provider>, listings: set<Listing>, strategy: Strategy, n: nat, wave: nat)
    requires StartsFewest(output, listings, strategy, n) && output != []
    requires 0 < wave <= |output|
    requires forall m :: 0 < m < wave ==> !Satisfied(Keys(output, Indices(m)), strategy)
    requires wave < |output| ==> Satisfied(Keys(output, Indices(wave)), strategy)
    ensures wave == Max2(1, n) && Satisfied(Keys(output, Indices(wave)), strategy)
  {
    hide Fewest;
    if n < wave {
      SatisfiedMonotone(Keys(output, Indices(n)), Keys(output, Indices(Max2(1, n))), strategy);
    } else {
      SatisfiedMonotone(Keys(output, Indices(n)), Keys(output, Indices(|output|)), strategy);
      IndicesSize(wave);
      FewestIsNeeded(output, Indices(wave), listings, strategy, n);
    }
  }

  lemma {:induction false} IndicesSize(n: nat)
    ensures |Indices(n)| == n
  {
    if n > 0 { IndicesSize(n - 1); }
  }

  // ----- the dispatch plan -----

  /** `checked_add` over the counts of one requirement; `None` on `max` or overflow. */
  function AddCounts(req: Requirement, keys: seq<Category>, total: u64): Option<u64>
    requires forall c :: c in keys ==> c in req
  {
    if keys == [] then Some(total)
    else if req[keys[0]].Max? || total + req[keys[0]].n > U64_MAX then None
    else AddCounts(req, keys[1..], total + req[keys[0]].n)
  }

  function AddAllCounts(reqs: seq<Requirement>, total: u64): Option<u64> {
    if reqs == [] then Some(total)
    else match AddCounts(reqs[0], Ascending(reqs[0].Keys), total)
      case None => None
      case Some(next) => AddAllCounts(reqs[1..], next)
  }

  predicate IsTrivialStrategy(strategy: Strategy) {
    strategy.oneOf == [] && var total := AddAllCounts(strategy.allOf, 0); total.Some? && total.value <= 1
  }

  /** The vote can go by rank alone: one entity is asked for at most, of whatever category. */
  predicate RanksOnly(strategy: Strategy) {
    IsTrivialStrategy(strategy) && forall r :: r in strategy.allOf ==> forall c :: c in r ==> c == ANY
  }

  /** Requirements on `any` alone that ask for one entity at most, between them and `start`. */
  ghost predicate OneAtMost(reqs: seq<Requirement>, start: nat) {
    && start <= 1
    && (forall i :: 0 <= i < |reqs| && ANY in reqs[i] ==> reqs[i][ANY].Count? && start + reqs[i][ANY].n <= 1)
    && (forall i, j :: 0 <= i < j < |reqs| && ANY in reqs[i] && ANY in reqs[j] ==>
          reqs[i][ANY] == Count(0) || reqs[j][ANY] == Count(0))
  }

  lemma OneAtMostCons(first: Requirement, rest: seq<Requirement>, start: nat)
    ensures OneAtMost([first] + rest, start) <==>
            if ANY !in first then OneAtMost(rest, start)
            else first[ANY].Count? && OneAtMost(rest, start + first[ANY].n)
  {
    var reqs := [first] + rest;
    assert reqs[0] == first && forall i :: 0 < i < |reqs| ==> reqs[i] == rest[i - 1];
    if OneAtMost(reqs, start) && ANY in first {
      assert forall i :: 0 <= i < |rest| ==> rest[i] == reqs[i + 1];
    }
    assert forall i :: 0 <= i < |rest| ==> rest[i] == reqs[i + 1];
  }

  lemma {:induction false} TotalsGrow(req: Requirement, keys: seq<Category>, total: u64)
    requires forall c :: c in keys ==> c in req
    ensures var sum := AddCounts(req, keys, total);
            sum.Some? ==> sum.value >= total && forall c :: c in keys ==> req[c].Count?
  {
    if keys != [] && AddCounts(req, keys, total).Some? {
      TotalsGrow(req, keys[1..], total + req[keys[0]].n);
      assert keys == [keys[0]] + keys[1..];
    }
  }

  lemma {:induction false} AllTotalsGrow(reqs: seq<Requirement>, total: u64)
    ensures AddAllCounts(reqs, total).Some? ==> AddAllCounts(reqs, total).value >= total
  {
    hide AddCounts;
    if reqs != [] {
      TotalsGrow(reqs[0], Ascending(reqs[0].Keys), total);
      var next := AddCounts(reqs[0], Ascending(reqs[0].Keys), total);
      if next.Some? { AllTotalsGrow(reqs[1..], next.value); }
    }
  }

  lemma OneKeyAdds(req: Requirement, start: u64)
    requires forall c :: c in req ==> c == ANY
    ensures AddCounts(req, Ascending(req.Keys), start) ==
            if ANY !in req then Some(start)
            else if req[ANY].Max? || start + req[ANY].n > U64_MAX then None else Some(start + req[ANY].n)
  {
    var keys := Ascending(req.Keys);
    AscendingDistinct(req.Keys);
    if keys != [] {
      assert keys[0] in req && keys[0] == ANY;
      assert req.Keys == {ANY};
      assert keys == [ANY];
      assert keys[1..] == [];
    }
  }

  lemma {:induction false} TrivialTotals(reqs: seq<Requirement>, start: u64)
    requires forall r :: r in reqs ==> forall c :: c in r ==> c == ANY
    ensures var total := AddAllCounts(reqs, start);
            total.Some? && total.value <= 1 <==> OneAtMost(reqs, start)
  {
    hide AddCounts;
    if reqs != [] {
      var first, rest := reqs[0], reqs[1..];
      assert first in reqs && reqs == [first] + rest;
      assert forall r :: r in rest ==> r in reqs;
      OneKeyAdds(first, start);
      OneAtMostCons(first, rest, start);
      AllTotalsGrow(reqs, start);
      var next := AddCounts(first, Ascending(first.Keys), start);
      if next.Some? { TrivialTotals(rest, next.value); }
    }
  }

  /** When the dispatch goes by rank alone: no alternatives, and nothing but counts of `any`,
      all of them none apart from a single one. */
  lemma RanksOnlyMeans(strategy: Strategy)
    ensures RanksOnly(strategy) <==>
            && strategy.oneOf == []
            && (forall i, c :: 0 <= i < |strategy.allOf| && c in strategy.allOf[i] ==>
                  c == ANY && (strategy.allOf[i][c] == Count(0) || strategy.allOf[i][c] == Count(1)))
            && (forall i, j :: 0 <= i < j < |strategy.allOf| && ANY in strategy.allOf[i] && ANY in strategy.allOf[j] ==>
                  strategy.allOf[i][ANY] == Count(0) || strategy.allOf[j][ANY] == Count(0))
  {
    hide AddAllCounts;
    if forall r :: r in strategy.allOf ==> forall c :: c in r ==> c == ANY {
      TrivialTotals(strategy.allOf, 0);
      assert forall i :: 0 <= i < |strategy.allOf| ==> strategy.allOf[i] in strategy.allOf;
    }
  }

  lemma OneKeyTotals(req: Requirement, start: u64)
    requires (forall c :: c in req ==> c == ANY) && AddCounts(req, Ascending(req.Keys), start).Some?
    ensures Resolved(req) && SlotsOf(req) == []
    ensures AddCounts(req, Ascending(req.Keys), start).value == start + if ANY in req then req[ANY].n else 0
  {
    var keys := Ascending(req.Keys);
    AscendingDistinct(req.Keys);
    if keys != [] {
      assert keys[0] in req && keys[0] == ANY;
      assert req.Keys == {ANY};
      assert keys == [ANY] && keys[..0] == [];
      assert SlotsOfKeys(req, keys) == SlotsOfKeys(req, keys[..0]);
      assert AddCounts(req, keys, start) == AddCounts(req, keys[1..], start + req[ANY].n);
    }
  }

  /** What requirements on `any` alone add up to. */
  lemma {:induction false} AnyOnlyTotals(reqs: seq<Requirement>, start: u64)
    requires forall r :: r in reqs ==> forall c :: c in r ==> c == ANY
    requires AddAllCounts(reqs, start).Some? && AddAllCounts(reqs, start).value <= 1
    ensures AllResolved(reqs) && Slots(reqs) == [] && start + AnyQuorum(reqs) <= 1
  {
    hide SlotsOf, AddCounts;
    if reqs != [] {
      var first, rest := reqs[0], reqs[1..];
      assert first in reqs && reqs == [first] + rest;
      assert forall r :: r in rest ==> r in reqs;
      OneKeyTotals(first, start);
      AnyOnlyTotals(rest, AddCounts(first, Ascending(first.Keys), start).value);
      AnyOfCons(first, rest);
      SlotsOfCons(first, rest);
      assert AllResolved(reqs) by { assert forall i :: 0 < i < |reqs| ==> reqs[i] == rest[i - 1]; }
    }
  }

  lemma {:induction false} AnyOfCons(first: Requirement, rest: seq<Requirement>)
    ensures AnyQuorum([first] + rest) ==
            if ANY in first && first[ANY].Count? then SatAdd(first[ANY].n, AnyQuorum(rest)) else AnyQuorum(rest)
  {
    if rest == [] {
      assert [first] + rest == [first];
      assert AnyQuorum([first]) ==
             if ANY in first && first[ANY].Count? then SatAdd(AnyQuorum([]), first[ANY].n) else AnyQuorum([]);
    } else {
      var n := |rest| - 1;
      AnyOfCons(first, rest[..n]);
      assert ([first] + rest)[..n + 1] == [first] + rest[..n];
    }
  }

  lemma {:induction false} SlotsOfCons(first: Requirement, rest: seq<Requirement>)
    ensures Slots([first] + rest) == SlotsOf(first) + Slots(rest)
  {
    SlotsOfLast([], first);
    hide Slots, SlotsOf;
    if rest == [] {
      assert [first] + rest == [] + [first];
    } else {
      var n := |rest| - 1;
      SlotsOfCons(first, rest[..n]);
      assert [first] + rest == ([first] + rest[..n]) + [rest[n]] && rest == rest[..n] + [rest[n]];
      SlotsOfLast([first] + rest[..n], rest[n]);
      SlotsOfLast(rest[..n], rest[n]);
    }
  }

  lemma SlotsOfLast(reqs: seq<Requirement>, last: Requirement)
    ensures Slots(reqs + [last]) == Slots(reqs) + SlotsOf(last)
    ensures reqs == [] ==> Slots(reqs) == []
  {
    hide SlotsOf;
    assert (reqs + [last])[..|reqs|] == reqs;
  }

  /** The empty requirement that stands for a missing `oneOf` asks for nothing. */
  lemma NothingMore(reqs: seq<Requirement>)
    ensures Slots(reqs + [map[]]) == Slots(reqs) && AnyQuorum(reqs + [map[]]) == AnyQuorum(reqs)
    ensures AllResolved(reqs) ==> AllResolved(reqs + [map[]])
  {
    var more := reqs + [map[]];
    assert more[..|more| - 1] == reqs && more[|more| - 1] == map[];
    assert SlotsOf(map[]) == [];
  }

  lemma NoSlotsMet(listings: set<Listing>, reqs: seq<Requirement>)
    requires AllResolved(reqs) && Slots(reqs) == [] && AnyQuorum(reqs) <= |Entities(listings)|
    ensures Meets(listings, reqs)
  {
    assert Fills(listings, multiset(Slots(reqs)), map[]) by {
      forall c ensures |Held(map[], c)| == 0 { assert Held(map[], c) == {}; }
    }
  }

  /** A strategy for which rank order is enough is met by any one provider, and by none
      when it asks for none. */
  lemma RanksOnlyMet(strategy: Strategy, listings: set<Listing>)
    requires RanksOnly(strategy)
    ensures Need(Asked(strategy, 0)) <= 1
    ensures listings != {} || Need(Asked(strategy, 0)) == 0 ==> Meets(listings, Asked(strategy, 0))
  {
    AnyOnlyTotals(strategy.allOf, 0);
    NothingMore(strategy.allOf);
    assert Asked(strategy, 0) == strategy.allOf + [map[]];
    if l :| l in listings {
      assert l.1 in Entities(listings);
      assert |Entities(listings)| > 0;
    }
    if AnyQuorum(Asked(strategy, 0)) <= |Entities(listings)| {
      NoSlotsMet(listings, Asked(strategy, 0));
    }
  }

  lemma RanksOnlyFewest(strategy: Strategy, providers: seq<Provider>) returns (need: nat)
    requires RanksOnly(strategy) && providers != []
    ensures StartsFewest(providers, Keys(providers, Indices(|providers|)), strategy, need)
  {
    hide RanksOnly, Meets, Need;
    var all := Keys(providers, Indices(|providers|));
    need := Need(Asked(strategy, 0));
    assert Key(providers[0]) in all && Key(providers[0]) in Keys(providers, Indices(1));
    assert strategy.oneOf == [] by { OneOfEmpty(strategy); }
    RanksOnlyMet(strategy, all);
    RanksOnlyMet(strategy, Keys(providers, Indices(need)));
    assert Satisfied(Keys(providers, Indices(need)), strategy);
  }

  lemma OneOfEmpty(strategy: Strategy)
    requires RanksOnly(strategy)
    ensures strategy.oneOf == []
  {
  }

  ghost predicate AllKnown(providers: seq<Provider>) {
    forall p :: p in providers ==> p.category in CATEGORIES
  }

  lemma {:induction false} KnownAll(providers: seq<Provider>)
    requires AllKnown(providers)
    ensures Known(providers) == providers
  {
    if providers != [] {
      var n := |providers| - 1;
      assert providers == providers[..n] + [providers[n]];
      assert forall p :: p in providers[..n] ==> p in providers;
      KnownAll(providers[..n]);
    }
  }

  /** Both orders together: whatever the strategy, the result starts with the fewest. */
  lemma OrdersStartFewest(healthy: seq<Provider>, pool: seq<Provider>, strategy: Strategy, output: seq<Provider>,
                          ordered: seq<Provider>) returns (n: nat)
    requires QuorumOrder(healthy, strategy, output) && pool == Known(healthy) && multiset(output) == multiset(pool)
    requires Satisfied(Keys(pool, Indices(|pool|)), strategy)
    requires strategy.oneOf != [] ==> ordered == output
    requires strategy.oneOf == [] ==>
               exists selected :: |selected| == |output| && Chosen(selected) == Kept(output, strategy)
                                  && ordered == SelectedFirst(output, selected)
    ensures StartsFewest(ordered, Keys(pool, Indices(|pool|)), strategy, n)
  {
    hide Satisfied, Promoted, Kept, SelectedFirst, InDealingOrder;
    var base :| InDealingOrder(healthy, strategy, base)
                && if strategy.oneOf == [] then output == base else Promoted(base, strategy, output);
    DealingPermutes(healthy, strategy, base);
    SameVoices(base, pool);
    SameVoices(output, pool);
    if strategy.oneOf != [] {
      n := PromotedStartsFewest(base, strategy, output);
    } else {
      var selected :| |selected| == |output| && Chosen(selected) == Kept(output, strategy)
                      && ordered == SelectedFirst(output, selected);
      PrioritizedStartsFewest(output, strategy, selected);
      n := |Chosen(selected)|;
    }
  }

  /** `wave` providers from the front satisfy the strategy, and no choice of fewer does. In
      terms of the strategy, `wave` is the least need of an alternative that can be met, or one. */
  ghost predicate OptimalWave(healthy: seq<Provider>, strategy: Strategy, ordered: seq<Provider>, wave: nat) {
    && (exists n :: Fewest(Keys(healthy, Indices(|healthy|)), strategy, n) && wave == Max2(1, n))
    && wave <= |ordered| && Satisfied(Keys(ordered, Indices(wave)), strategy)
    && forall chosen :: Satisfied(Keys(healthy, chosen), strategy) ==> wave <= Max2(1, |chosen|)
  }

  lemma WaveIsOptimal(healthy: seq<Provider>, strategy: Strategy, ordered: seq<Provider>, n: nat, wave: nat)
    requires StartsFewest(ordered, Keys(healthy, Indices(|healthy|)), strategy, n)
    requires wave == Max2(1, n) && wave <= |ordered| && Satisfied(Keys(ordered, Indices(wave)), strategy)
    ensures OptimalWave(healthy, strategy, ordered, wave)
  {
    hide Satisfied, Fewest;
    var all := Keys(healthy, Indices(|healthy|));
    forall chosen | Satisfied(Keys(healthy, chosen), strategy) ensures wave <= Max2(1, |chosen|) {
      assert Keys(healthy, chosen) <= all;
      FewestIsNeeded(healthy, chosen, all, strategy, n);
    }
  }

  /** Who is dialled: all the healthy providers, or those of a known category. */
  function Dialled(healthy: seq<Provider>, strategy: Strategy): seq<Provider> {
    if RanksOnly(strategy) then healthy else Known(healthy)
  }

  /** The order and the first wave of the provider dispatch, over healthy providers. When
      those it dials can satisfy the strategy, the first wave does, and nobody could do it with
      fewer. Validated entries have known categories, and then everyone is dialled (`KnownAll`). */
  method PlanDispatch(healthy: seq<Provider>, strategy: Strategy) returns (ordered: seq<Provider>, firstWave: nat)
    ensures RanksOnly(strategy) ==> ordered == healthy
    ensures !RanksOnly(strategy) ==> exists output ::
      && QuorumOrder(healthy, strategy, output)
      && (strategy.oneOf != [] || !Satisfied(Keys(output, Indices(|output|)), strategy) ==> ordered == output)
      && (strategy.oneOf == [] && Satisfied(Keys(output, Indices(|output|)), strategy) ==>
            exists selected :: |selected| == |output| && Chosen(selected) == Kept(output, strategy)
                               && ordered == SelectedFirst(output, selected))
    ensures firstWave > 0 && (ordered == [] ==> firstWave == 1) && (ordered != [] ==> firstWave <= |ordered|)
    ensures forall m :: 0 < m < firstWave ==> !Satisfied(Keys(ordered, Indices(m)), strategy)
    ensures firstWave < |ordered| ==> Satisfied(Keys(ordered, Indices(firstWave)), strategy)
    ensures var pool := Dialled(healthy, strategy);
            && multiset(ordered) == multiset(pool)
            && (pool != [] && Satisfied(Keys(pool, Indices(|pool|)), strategy) ==>
                  OptimalWave(pool, strategy, ordered, firstWave))
  {
    ghost var pool := Dialled(healthy, strategy);
    assert RanksOnly(strategy) ==> pool == healthy;
    assert !RanksOnly(strategy) ==> pool == Known(healthy);
    hide *;
    ghost var n := 0;
    ghost var feasible := pool != [] && Satisfied(Keys(pool, Indices(|pool|)), strategy);
    if RanksOnly(strategy) {
      ordered := healthy;
      if feasible { n := RanksOnlyFewest(strategy, healthy); }
    } else {
      var output := OrderProvidersForQuorum(healthy, strategy);
      SameVoices(output, pool);
      ordered := PrioritizeMinimalQuorum(output, strategy);
      if feasible { n := OrdersStartFewest(healthy, pool, strategy, output, ordered); }
    }
    SameLength(ordered, pool);
    firstWave := MinProvidersForStrategy(ordered, strategy);
    if feasible {
      WaveIsFewest(ordered, Keys(pool, Indices(|pool|)), strategy, n, firstWave);
      WaveIsOptimal(pool, strategy, ordered, n, firstWave);
    }
    firstWave := if firstWave < 1 then 1 else firstWave;
  }
}
