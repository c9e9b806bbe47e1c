/** The smallest set of providers that satisfies a strategy: `minimal_satisfying_selection`
    drops from the back, and what it keeps is a minimum over all subsets. */
module Selection {
  import opened TextOrder
  import opened Quorum
  import opened Matching
  import opened Wrappers

  datatype Provider = Provider(category: Category, entity: Entity, id: string, rank: int)

  function Key(p: Provider): Listing {
    (p.category, p.entity)
  }

  /** The listings the providers at `chosen` vote with. */
  function Keys(providers: seq<Provider>, chosen: set<nat>): set<Listing> {
    set i: nat | i in chosen && i < |providers| :: Key(providers[i])
  }

  function Indices(n: nat): (r: set<nat>)
    ensures forall i: nat :: i in r <==> i < n
  {
    if n == 0 then {} else Indices(n - 1) + {n - 1}
  }

  function Chosen(selected: seq<bool>): set<nat> {
    set i: nat | 0 <= i < |selected| && selected[i]
  }

  // ----- every satisfying choice contains one of exactly `Need` providers -----

  ghost predicate OnePerEntity(listings: set<Listing>) {
    forall l, m :: l in listings && m in listings && l.1 == m.1 ==> l == m
  }

  lemma {:induction false} OnePerEntitySize(listings: set<Listing>)
    requires OnePerEntity(listings)
    ensures |Entities(listings)| == |listings|
  {
    if listings != {} {
      var l :| l in listings;
      var rest := listings - {l};
      OnePerEntitySize(rest);
      assert Entities(listings) == Entities(rest) + {l.1};
      assert l.1 !in Entities(rest);
    }
  }

  /** A choice of one listing per entity grows, one new entity at a time, to any size the pool has. */
  lemma {:induction false} Widen(listings: set<Listing>, some: set<Listing>, n: nat) returns (more: set<Listing>)
    requires some <= listings && OnePerEntity(some)
    requires |some| <= n <= |Entities(listings)|
    ensures some <= more <= listings && |more| == n == |Entities(more)|
    decreases n - |some|
  {
    OnePerEntitySize(some);
    if |some| == n {
      more := some;
    } else {
      if Entities(listings) <= Entities(some) { SubsetSize(Entities(listings), Entities(some)); }
      var e :| e in Entities(listings) && e !in Entities(some);
      var l :| l in listings && l.1 == e;
      assert forall m :: m in some ==> m.1 in Entities(some);
      more := Widen(listings, some + {l}, n);
    }
  }

  /** A provider for each listing. */
  lemma {:induction false} PickProviders(providers: seq<Provider>, chosen: set<nat>, listings: set<Listing>)
    returns (picked: set<nat>)
    requires listings <= Keys(providers, chosen)
    ensures picked <= chosen && |picked| == |listings| && Keys(providers, picked) == listings
  {
    if listings == {} {
      picked := {};
    } else {
      var l :| l in listings;
      var i := ProviderOf(providers, chosen, l);
      hide Keys, Key;
      var rest := PickProviders(providers, chosen, listings - {l});
      if i in rest { KeyOffered(providers, rest, i); }
      KeysAdd(providers, rest, i);
      PutBack(listings, l);
      OneMore(rest, i);
      picked := rest + {i};
    }
  }

  lemma PutBack(listings: set<Listing>, l: Listing)
    requires l in listings
    ensures listings - {l} + {l} == listings && |listings - {l}| + 1 == |listings|
  {
  }

  lemma OneMore(chosen: set<nat>, i: nat)
    requires i !in chosen
    ensures |chosen + {i}| == |chosen| + 1
  {
  }

  lemma ProviderOf(providers: seq<Provider>, chosen: set<nat>, l: Listing) returns (i: nat)
    requires l in Keys(providers, chosen)
    ensures i in chosen && i < |providers| && Key(providers[i]) == l
  {
    i :| i in chosen && i < |providers| && Key(providers[i]) == l;
  }

  lemma KeyOffered(providers: seq<Provider>, chosen: set<nat>, i: nat)
    requires i in chosen && i < |providers|
    ensures Key(providers[i]) in Keys(providers, chosen)
  {
  }

  function HolderListings(owner: Owners): set<Listing> {
    set e | e in owner :: (owner[e], e)
  }

  lemma {:induction false} HolderListingsSize(owner: Owners)
    ensures OnePerEntity(HolderListings(owner)) && |HolderListings(owner)| == |owner|
    decreases |owner|
  {
    var held := HolderListings(owner);
    assert OnePerEntity(held);
    OnePerEntitySize(held);
    assert Entities(held) == owner.Keys by {
      forall e | e in owner ensures e in Entities(held) { assert (owner[e], e) in held; }
    }
  }

  /** Inside every choice that meets the requirements there is one of exactly `Need` providers. */
  lemma NeedSuffices(providers: seq<Provider>, chosen: set<nat>, reqs: seq<Requirement>) returns (enough: set<nat>)
    requires Meets(Keys(providers, chosen), reqs)
    ensures enough <= chosen && |enough| == Need(reqs) && Meets(Keys(providers, enough), reqs)
  {
    var listings := Keys(providers, chosen);
    var slots := Slots(reqs);
    var owner :| Fills(listings, multiset(slots), owner);
    FillSize(slots, owner);
    HolderListingsSize(owner);
    MeetsNeeds(listings, reqs);
    var more := Widen(listings, HolderListings(owner), Need(reqs));
    enough := PickProviders(providers, chosen, more);
    assert Fills(more, multiset(slots), owner) by {
      forall e | e in owner ensures (owner[e], e) in more { assert (owner[e], e) in HolderListings(owner); }
    }
  }

  lemma {:induction false} KeysSize(providers: seq<Provider>, chosen: set<nat>)
    ensures |Entities(Keys(providers, chosen))| <= |chosen|
  {
    if chosen != {} {
      var i :| i in chosen;
      var rest := chosen - {i};
      KeysSize(providers, rest);
      if i < |providers| {
        assert Keys(providers, chosen) == Keys(providers, rest) + {Key(providers[i])};
        assert Entities(Keys(providers, chosen)) == Entities(Keys(providers, rest)) + {providers[i].entity};
      } else {
        assert Keys(providers, chosen) == Keys(providers, rest);
      }
    }
  }

  /** No fewer than `Need` providers meet the requirements. */
  lemma NeedNecessary(providers: seq<Provider>, chosen: set<nat>, reqs: seq<Requirement>)
    requires Meets(Keys(providers, chosen), reqs)
    ensures Need(reqs) <= |chosen|
  {
    MeetsNeeds(Keys(providers, chosen), reqs);
    KeysSize(providers, chosen);
  }

  // ----- irredundant means minimum -----

  /** `chosen` satisfies the strategy and no provider of it can be dropped. */
  ghost predicate Irredundant(providers: seq<Provider>, chosen: set<nat>, strategy: Strategy) {
    && Satisfied(Keys(providers, chosen), strategy)
    && forall i :: i in chosen ==> !Satisfied(Keys(providers, chosen - {i}), strategy)
  }

  /** An irredundant choice has exactly the size some alternative needs, and meets that one. */
  lemma IrredundantSize(providers: seq<Provider>, chosen: set<nat>, strategy: Strategy) returns (k: nat)
    requires Irredundant(providers, chosen, strategy)
    ensures k < |Alternatives(strategy)| && Meets(Keys(providers, chosen), Asked(strategy, k))
    ensures |chosen| == Need(Asked(strategy, k))
  {
    hide Satisfied, Meets, Need, Alternatives, Asked, Keys;
    k := MetBySome(Keys(providers, chosen), strategy);
    var enough := NeedSuffices(providers, chosen, Asked(strategy, k));
    forall i | i in chosen ensures i in enough {
      if i !in enough { StillMet(providers, enough, chosen - {i}, strategy, k); }
    }
    assert chosen == enough;
  }

  lemma MetBySome(listings: set<Listing>, strategy: Strategy) returns (k: nat)
    requires Satisfied(listings, strategy)
    ensures k < |Alternatives(strategy)| && Meets(listings, Asked(strategy, k))
  {
    hide Meets, Asked;
    k :| 0 <= k < |Alternatives(strategy)| && Meets(listings, Asked(strategy, k));
  }

  lemma StillMet(providers: seq<Provider>, few: set<nat>, many: set<nat>, strategy: Strategy, k: nat)
    requires few <= many && k < |Alternatives(strategy)| && Meets(Keys(providers, few), Asked(strategy, k))
    ensures Satisfied(Keys(providers, many), strategy)
  {
    hide Meets;
    MeetsMonotone(Keys(providers, few), Keys(providers, many), Asked(strategy, k));
  }

  /** A satisfying choice is at least as large as some alternative needs. */
  lemma SatisfiedSize(providers: seq<Provider>, chosen: set<nat>, strategy: Strategy) returns (k: nat)
    requires Satisfied(Keys(providers, chosen), strategy)
    ensures k < |Alternatives(strategy)| && Meets(Keys(providers, chosen), Asked(strategy, k))
    ensures Need(Asked(strategy, k)) <= |chosen|
  {
    hide *;
    k := MetBySome(Keys(providers, chosen), strategy);
    NeedNecessary(providers, chosen, Asked(strategy, k));
  }

  /** With one alternative, dropping greedily is a global optimum: no satisfying choice of
      providers is smaller than an irredundant one. */
  lemma IrredundantIsMinimum(providers: seq<Provider>, chosen: set<nat>, other: set<nat>, strategy: Strategy)
    requires |strategy.oneOf| <= 1
    requires Irredundant(providers, chosen, strategy) && Satisfied(Keys(providers, other), strategy)
    ensures |chosen| <= |other|
  {
    hide Satisfied, Meets, Irredundant, Need, Asked, Keys;
    var k := IrredundantSize(providers, chosen, strategy);
    var j := SatisfiedSize(providers, other, strategy);
    assert j == k;
  }

  // ----- dropping from the back -----

  /** The providers at `chosen` that vote with `l`. */
  function Copies(providers: seq<Provider>, chosen: set<nat>, l: Listing): set<nat> {
    set i: nat | i in chosen && i < |providers| && Key(providers[i]) == l
  }

  /** `counts` says how many of the chosen providers vote with each listing. */
  ghost predicate Counted(providers: seq<Provider>, chosen: set<nat>, counts: map<Listing, nat>) {
    && (forall l :: l in counts ==> counts[l] == |Copies(providers, chosen, l)|)
    && (forall l :: l in Keys(providers, chosen) ==> l in counts)
  }

  ghost predicate Tallied(providers: seq<Provider>, chosen: set<nat>, counts: map<Listing, nat>, pool: Pool) {
    Counted(providers, chosen, counts) && Listings(pool) == Keys(providers, chosen)
  }

  lemma CopiesAdd(providers: seq<Provider>, chosen: set<nat>, i: nat, l: Listing)
    requires i < |providers| && i !in chosen
    ensures |Copies(providers, chosen + {i}, l)| == |Copies(providers, chosen, l)|
            + (if l == Key(providers[i]) then 1 else 0)
  {
    if l == Key(providers[i]) {
      assert Copies(providers, chosen + {i}, l) == Copies(providers, chosen, l) + {i};
    } else {
      assert Copies(providers, chosen + {i}, l) == Copies(providers, chosen, l);
    }
  }

  lemma KeysAdd(providers: seq<Provider>, chosen: set<nat>, i: nat)
    requires i < |providers|
    ensures Keys(providers, chosen + {i}) == Keys(providers, chosen) + {Key(providers[i])}
  {
  }

  function CountUp(counts: map<Listing, nat>, l: Listing): map<Listing, nat> {
    counts[l := (if l in counts then counts[l] else 0) + 1]
  }

  lemma TallyAdd(providers: seq<Provider>, chosen: set<nat>, counts: map<Listing, nat>, pool: Pool, i: nat)
    requires Tallied(providers, chosen, counts, pool) && i < |providers| && i !in chosen
    ensures Tallied(providers, chosen + {i}, CountUp(counts, Key(providers[i])),
                    Insert(pool, providers[i].category, providers[i].entity))
  {
    var p := providers[i];
    KeysAdd(providers, chosen, i);
    InsertLists(pool, p.category, p.entity);
    forall l | l in CountUp(counts, Key(p)) ensures CountUp(counts, Key(p))[l] == |Copies(providers, chosen + {i}, l)| {
      CopiesAdd(providers, chosen, i, l);
      if l !in counts {
        assert Copies(providers, chosen, l) == {} by { NoCopies(providers, chosen, l); }
      }
    }
  }

  lemma NoCopies(providers: seq<Provider>, chosen: set<nat>, l: Listing)
    ensures Copies(providers, chosen, l) == {} <==> l !in Keys(providers, chosen)
  {
    forall j | j in Copies(providers, chosen, l) ensures l in Keys(providers, chosen) {
      assert Key(providers[j]) in Keys(providers, chosen);
    }
    if l in Keys(providers, chosen) {
      var j: nat :| j in chosen && j < |providers| && Key(providers[j]) == l;
      assert j in Copies(providers, chosen, l);
    }
  }

  function DropListing(pool: Pool, p: Provider): Pool
    requires p.category in pool
  {
    pool[p.category := pool[p.category] - {p.entity}]
  }

  lemma TallyDrop(providers: seq<Provider>, chosen: set<nat>, counts: map<Listing, nat>, pool: Pool, i: nat)
    requires Tallied(providers, chosen, counts, pool) && i < |providers| && i in chosen
    ensures Key(providers[i]) in counts && providers[i].category in pool
    ensures counts[Key(providers[i])] > 0
    ensures Tallied(providers, chosen - {i}, counts[Key(providers[i]) := counts[Key(providers[i])] - 1],
                    if counts[Key(providers[i])] == 1 then DropListing(pool, providers[i]) else pool)
  {
    var p := providers[i];
    var fewer := chosen - {i};
    assert fewer + {i} == chosen;
    KeysAdd(providers, fewer, i);
    assert Key(p) in Listings(pool);
    forall l ensures |Copies(providers, chosen, l)| == |Copies(providers, fewer, l)| + (if l == Key(p) then 1 else 0) {
      CopiesAdd(providers, fewer, i, l);
    }
    NoCopies(providers, fewer, Key(p));
    if counts[Key(p)] == 1 {
      assert Listings(DropListing(pool, p)) == Listings(pool) - {Key(p)};
    }
  }

  /** No chosen provider at or after `from` can be dropped. */
  ghost predicate NeededFrom(providers: seq<Provider>, chosen: set<nat>, from: nat, strategy: Strategy) {
    forall i :: i in chosen && from <= i ==> !Satisfied(Keys(providers, chosen - {i}), strategy)
  }

  /** What cannot be dropped from a choice cannot be dropped from a smaller one. */
  lemma StillNeeded(providers: seq<Provider>, chosen: set<nat>, from: nat, strategy: Strategy)
    requires NeededFrom(providers, chosen, from + 1, strategy)
    ensures NeededFrom(providers, chosen - {from}, from, strategy)
  {
    var fewer := chosen - {from};
    forall i | i in fewer && from <= i ensures !Satisfied(Keys(providers, fewer - {i}), strategy) {
      if Satisfied(Keys(providers, fewer - {i}), strategy) {
        SatisfiedMonotone(Keys(providers, fewer - {i}), Keys(providers, chosen - {i}), strategy);
      }
    }
  }

  lemma AlsoNeeded(providers: seq<Provider>, chosen: set<nat>, from: nat, strategy: Strategy)
    requires NeededFrom(providers, chosen, from + 1, strategy)
    requires !Satisfied(Keys(providers, chosen - {from}), strategy)
    ensures NeededFrom(providers, chosen, from, strategy)
  {
  }

  lemma Deselect(selected: seq<bool>, index: nat)
    requires index < |selected|
    ensures Chosen(selected[index := false]) == Chosen(selected) - {index}
  {
  }

  method TallyAll(output: seq<Provider>) returns (counts: map<Listing, nat>, entities: Pool)
    ensures Tallied(output, Indices(|output|), counts, entities)
  {
    counts, entities := map[], map[];
    assert Keys(output, Indices(0)) == {};
    for i := 0 to |output|
      invariant Tallied(output, Indices(i), counts, entities)
    {
      TallyAdd(output, Indices(i), counts, entities, i);
      assert Indices(i) + {i} == Indices(i + 1);
      var p := output[i];
      counts, entities := CountUp(counts, Key(p)), Insert(entities, p.category, p.entity);
    }
  }

  /** The greedy drop itself: from `index - 1` down to 0, drop what the rest can do without. */
  ghost function DropFromBack(providers: seq<Provider>, candidate: Strategy, chosen: set<nat>, index: nat): set<nat> {
    if index == 0 then chosen
    else if Satisfied(Keys(providers, chosen - {index - 1}), candidate)
    then DropFromBack(providers, candidate, chosen - {index - 1}, index - 1)
    else DropFromBack(providers, candidate, chosen, index - 1)
  }

  ghost function Kept(providers: seq<Provider>, candidate: Strategy): set<nat> {
    DropFromBack(providers, candidate, Indices(|providers|), |providers|)
  }

  /** Dropping from the back keeps a satisfying set from which nothing more can go. */
  lemma {:induction false} DropKeepsNeeded(providers: seq<Provider>, candidate: Strategy, chosen: set<nat>, index: nat)
    requires Satisfied(Keys(providers, chosen), candidate) && NeededFrom(providers, chosen, index, candidate)
    ensures var kept := DropFromBack(providers, candidate, chosen, index);
            kept <= chosen && Irredundant(providers, kept, candidate)
  {
    hide Satisfied, Irredundant, NeededFrom;
    if index == 0 {
      assert DropFromBack(providers, candidate, chosen, index) == chosen;
      NeededAll(providers, chosen, candidate);
    } else if Satisfied(Keys(providers, chosen - {index - 1}), candidate) {
      StillNeeded(providers, chosen, index - 1, candidate);
      DropKeepsNeeded(providers, candidate, chosen - {index - 1}, index - 1);
    } else {
      AlsoNeeded(providers, chosen, index - 1, candidate);
      DropKeepsNeeded(providers, candidate, chosen, index - 1);
    }
  }

  lemma NeededAll(providers: seq<Provider>, chosen: set<nat>, strategy: Strategy)
    requires Satisfied(Keys(providers, chosen), strategy) && NeededFrom(providers, chosen, 0, strategy)
    ensures Irredundant(providers, chosen, strategy)
  {
  }

  lemma KeptIsIrredundant(providers: seq<Provider>, candidate: Strategy)
    requires Satisfied(Keys(providers, Indices(|providers|)), candidate)
    ensures Irredundant(providers, Kept(providers, candidate), candidate)
  {
    DropKeepsNeeded(providers, candidate, Indices(|providers|), |providers|);
  }

  // ----- which minimum it is -----

  /** `i` is the last provider on which the two choices differ, and only `other` has it. */
  ghost predicate LaterIn(other: set<nat>, kept: set<nat>, i: nat) {
    i in other && i !in kept && forall j: nat :: j > i ==> (j in other <==> j in kept)
  }

  lemma {:induction false} DropTouchesBelow(providers: seq<Provider>, candidate: Strategy, chosen: set<nat>, index: nat)
    ensures DropFromBack(providers, candidate, chosen, index) <= chosen
    ensures forall j: nat :: j >= index ==> (j in chosen <==> j in DropFromBack(providers, candidate, chosen, index))
  {
    hide Satisfied;
    if index > 0 {
      DropTouchesBelow(providers, candidate, chosen - {index - 1}, index - 1);
      DropTouchesBelow(providers, candidate, chosen, index - 1);
    }
  }

  lemma {:induction false} DropIsEarliest(providers: seq<Provider>, candidate: Strategy, chosen: set<nat>, index: nat,
                                          other: set<nat>) returns (i: nat)
    requires other <= chosen && Satisfied(Keys(providers, other), candidate)
    requires forall j: nat :: j >= index ==> (j in other <==> j in chosen)
    ensures var kept := DropFromBack(providers, candidate, chosen, index); other != kept ==> LaterIn(other, kept, i)
  {
    hide Satisfied;
    if index == 0 {
      assert other == chosen;
      i := 0;
    } else {
      var p := index - 1;
      if Satisfied(Keys(providers, chosen - {p}), candidate) {
        DropTouchesBelow(providers, candidate, chosen - {p}, p);
        if p in other { i := p; } else { i := DropIsEarliest(providers, candidate, chosen - {p}, p, other); }
      } else {
        if p !in other {
          assert Keys(providers, other) <= Keys(providers, chosen - {p});
          SatisfiedMonotone(Keys(providers, other), Keys(providers, chosen - {p}), candidate);
        }
        i := DropIsEarliest(providers, candidate, chosen, p, other);
      }
    }
  }

  /** Of all satisfying choices the one kept is the earliest: against any other, the last
      provider on which they differ is one that only the other uses. */
  lemma KeptIsEarliest(providers: seq<Provider>, candidate: Strategy, other: set<nat>) returns (i: nat)
    requires other <= Indices(|providers|) && Satisfied(Keys(providers, other), candidate)
    requires other != Kept(providers, candidate)
    ensures LaterIn(other, Kept(providers, candidate), i)
  {
    hide Satisfied;
    i := DropIsEarliest(providers, candidate, Indices(|providers|), |providers|, other);
  }

  lemma OneIsLater(a: set<nat>, b: set<nat>)
    ensures forall i, j :: !(LaterIn(a, b, i) && LaterIn(b, a, j))
  {
  }

  /** And that leaves no other choice. */
  lemma EarliestIsKept(providers: seq<Provider>, candidate: Strategy, some: set<nat>)
    requires some <= Indices(|providers|) && Satisfied(Keys(providers, some), candidate)
    requires forall other: set<nat> ::
               other <= Indices(|providers|) && Satisfied(Keys(providers, other), candidate) && other != some ==>
               exists i :: LaterIn(other, some, i)
    ensures some == Kept(providers, candidate)
  {
    SatisfiedMonotone(Keys(providers, some), Keys(providers, Indices(|providers|)), candidate);
    KeptIsIrredundant(providers, candidate);
    var kept := Kept(providers, candidate);
    DropTouchesBelow(providers, candidate, Indices(|providers|), |providers|);
    OneIsLater(some, kept);
    if some != kept {
      var i := KeptIsEarliest(providers, candidate, some);
    }
  }

  /** The state with everything from `index` on already tried. */
  ghost predicate Dropping(output: seq<Provider>, candidate: Strategy, selected: seq<bool>,
                           counts: map<Listing, nat>, entities: Pool, index: nat) {
    && |selected| == |output|
    && (forall i :: 0 <= i < |selected| && i < index ==> selected[i])
    && Tallied(output, Chosen(selected), counts, entities)
    && DropFromBack(output, candidate, Chosen(selected), index) == Kept(output, candidate)
  }

  /** One step of the drop: without this provider, is the candidate still met? If not, undo. */
  method TryDrop(output: seq<Provider>, candidate: Strategy, index: nat, before: seq<bool>,
                 countsBefore: map<Listing, nat>, entitiesBefore: Pool)
    returns (selected: seq<bool>, counts: map<Listing, nat>, entities: Pool)
    requires index < |output| && Dropping(output, candidate, before, countsBefore, entitiesBefore, index + 1)
    ensures Dropping(output, candidate, selected, counts, entities, index)
  {
    hide Satisfied;
    selected := before;
    ghost var chosen := Chosen(before);
    var p := output[index];
    var key := Key(p);
    TallyDrop(output, chosen, countsBefore, entitiesBefore, index);
    counts, entities := countsBefore[key := countsBefore[key] - 1], entitiesBefore;
    if counts[key] == 0 {
      entities := DropListing(entities, p);
    }
    var enough := IsStrategySatisfiable(entities, candidate);
    if enough {
      Deselect(selected, index);
      selected := selected[index := false];
    } else {
      TallyAdd(output, chosen - {index}, counts, entities, index);
      assert chosen - {index} + {index} == chosen;
      counts, entities := CountUp(counts, key), Insert(entities, p.category, p.entity);
    }
  }

  /** Marks what the greedy drop keeps, when all the providers together satisfy the candidate. */
  method MinimalSatisfyingSelection(output: seq<Provider>, candidate: Strategy) returns (r: Option<seq<bool>>)
    ensures r.None? <==> !Satisfied(Keys(output, Indices(|output|)), candidate)
    ensures r.Some? ==> |r.value| == |output| && Chosen(r.value) == Kept(output, candidate)
    ensures r.Some? ==> Irredundant(output, Chosen(r.value), candidate)
  {
    hide Satisfied, Irredundant;
    var counts, entities := TallyAll(output);
    var met := IsStrategySatisfiable(entities, candidate);
    if !met {
      return None;
    }
    var selected := seq(|output|, _ => true);
    assert Chosen(selected) == Indices(|output|);
    for index := |output| downto 0
      invariant Dropping(output, candidate, selected, counts, entities, index)
    {
      selected, counts, entities := TryDrop(output, candidate, index, selected, counts, entities);
    }
    KeptIsIrredundant(output, candidate);
    return Some(selected);
  }
}
