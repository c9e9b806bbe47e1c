/** The order of `order_providers_for_quorum` before any selection: category by category,
    and within one a turn for every entity, then another. */
module Dealing {
  import opened TextOrder
  import opened Quorum
  import opened Selection
  import opened StableSort

  // ----- one category: a turn for every entity, then another -----

  function InCategory(providers: seq<Provider>, c: Category): seq<Provider> {
    if providers == [] then []
    else
      var p := providers[|providers| - 1];
      InCategory(providers[..|providers| - 1], c) + if p.category == c then [p] else []
  }

  /** The providers of one entity, in order. */
  function ByEntity(providers: seq<Provider>, e: Entity): seq<Provider> {
    if providers == [] then []
    else
      var p := providers[|providers| - 1];
      ByEntity(providers[..|providers| - 1], e) + if p.entity == e then [p] else []
  }

  lemma ByEntityAppend(providers: seq<Provider>, p: Provider, e: Entity)
    ensures ByEntity(providers + [p], e) == ByEntity(providers, e) + if p.entity == e then [p] else []
  {
    assert (providers + [p])[..|providers|] == providers;
  }

  /** Which of its entity's providers the one at `i` is. */
  function Turn(dealt: seq<Provider>, i: nat): nat
    requires i < |dealt|
  {
    |ByEntity(dealt[..i], dealt[i].entity)|
  }

  /** Every entity's r-th provider comes before any entity's (r+1)-th, and within a turn
      the entities keep their `order`. */
  ghost predicate InTurns(dealt: seq<Provider>, order: seq<Entity>) {
    forall i, j :: 0 <= i < j < |dealt| ==>
      || Turn(dealt, i) < Turn(dealt, j)
      || (Turn(dealt, i) == Turn(dealt, j) && Position(order, dealt[i].entity) < Position(order, dealt[j].entity))
  }

  /** `dealt` keeps each entity's providers in their order and takes them in turns. */
  ghost predicate Dealt(block: seq<Provider>, order: seq<Entity>, dealt: seq<Provider>) {
    (forall e :: ByEntity(dealt, e) == ByEntity(block, e)) && InTurns(dealt, order)
  }

  /** Nothing dealt so far goes past the current turn, nor past its first `k` entities. */
  ghost predicate WithinTurn(order: seq<Entity>, round: nat, k: nat, dealt: seq<Provider>) {
    forall i :: 0 <= i < |dealt| ==>
      (Turn(dealt, i) < round || (Turn(dealt, i) == round && Position(order, dealt[i].entity) < k))
  }

  /** Each entity has contributed its first providers, one for every turn it has had. */
  ghost predicate Shared(block: seq<Provider>, order: seq<Entity>, round: nat, k: nat, dealt: seq<Provider>) {
    && (forall e :: ByEntity(dealt, e) <= ByEntity(block, e))
    && (forall j :: 0 <= j < |order| ==>
        |ByEntity(dealt, order[j])| == Share(block, order[j], if j < k then round + 1 else round))
  }

  /** The state of the round robin: `round` turns are complete, and in the current one the
      first `k` entities have had theirs. */
  ghost predicate Dealing(block: seq<Provider>, order: seq<Entity>, round: nat, k: nat, dealt: seq<Provider>) {
    && k <= |order| && InTurns(dealt, order)
    && WithinTurn(order, round, k, dealt)
    && Shared(block, order, round, k, dealt)
  }

  /** How many providers an entity has contributed after `rounds` turns. */
  function Share(block: seq<Provider>, e: Entity, rounds: nat): nat {
    if rounds < |ByEntity(block, e)| then rounds else |ByEntity(block, e)|
  }

  lemma TurnAppend(dealt: seq<Provider>, p: Provider, i: nat)
    requires i <= |dealt|
    ensures i < |dealt| ==> Turn(dealt + [p], i) == Turn(dealt, i)
    ensures i == |dealt| ==> Turn(dealt + [p], i) == |ByEntity(dealt, p.entity)|
  {
    assert (dealt + [p])[..i] == dealt[..i];
    assert dealt[..|dealt|] == dealt;
  }

  lemma TurnsAppend(order: seq<Entity>, round: nat, k: nat, dealt: seq<Provider>, p: Provider)
    requires InTurns(dealt, order) && WithinTurn(order, round, k, dealt)
    requires |ByEntity(dealt, p.entity)| == round && Position(order, p.entity) == k
    ensures InTurns(dealt + [p], order) && WithinTurn(order, round, k + 1, dealt + [p])
  {
    var more := dealt + [p];
    forall i | 0 <= i < |more| ensures Turn(more, i) == if i < |dealt| then Turn(dealt, i) else round {
      TurnAppend(dealt, p, i);
    }
  }

  lemma ShareAppend(block: seq<Provider>, order: seq<Entity>, round: nat, k: nat, dealt: seq<Provider>, p: Provider)
    requires Distinct(order) && k < |order| && Shared(block, order, round, k, dealt)
    requires round < |ByEntity(block, order[k])| && p == ByEntity(block, order[k])[round] && p.entity == order[k]
    ensures Shared(block, order, round, k + 1, dealt + [p])
  {
    hide ByEntity;
    var e := order[k];
    var more := dealt + [p];
    forall x ensures ByEntity(more, x) == ByEntity(dealt, x) + if x == e then [p] else [] {
      ByEntityAppend(dealt, p, x);
    }
    assert |ByEntity(dealt, e)| == round;
    assert ByEntity(more, e) == ByEntity(block, e)[..round + 1];
    forall j | 0 <= j < |order|
      ensures |ByEntity(more, order[j])| == Share(block, order[j], if j < k + 1 then round + 1 else round)
    {
      assert |ByEntity(dealt, order[j])| == Share(block, order[j], if j < k then round + 1 else round);
      if j != k { assert order[j] != e; }
    }
    forall x ensures ByEntity(more, x) <= ByEntity(block, x) {
      if x != e { assert ByEntity(more, x) == ByEntity(dealt, x); }
    }
  }

  lemma ShareSkip(block: seq<Provider>, order: seq<Entity>, round: nat, k: nat, dealt: seq<Provider>)
    requires k < |order| && Dealing(block, order, round, k, dealt) && |ByEntity(block, order[k])| <= round
    ensures Dealing(block, order, round, k + 1, dealt)
  {
  }

  /** The next entity in the order has a provider left: it is dealt. */
  lemma DealOne(block: seq<Provider>, order: seq<Entity>, round: nat, k: nat, dealt: seq<Provider>)
    requires Distinct(order) && k < |order| && Dealing(block, order, round, k, dealt)
    requires round < |ByEntity(block, order[k])|
    ensures Dealing(block, order, round, k + 1, dealt + [ByEntity(block, order[k])[round]])
  {
    var p := ByEntity(block, order[k])[round];
    ByEntityHolds(block, order[k]);
    PositionOf(order, k);
    TurnsAppend(order, round, k, dealt, p);
    ShareAppend(block, order, round, k, dealt, p);
  }

  lemma DealingStarts(block: seq<Provider>, order: seq<Entity>, buckets: map<Entity, seq<Provider>>)
    requires Bucketed(block, order, buckets)
    ensures Visiting(block, order, 0, 0, [], buckets, false)
  {
  }

  /** The state between two visits, with what says that the loop ends. */
  ghost predicate Visiting(block: seq<Provider>, order: seq<Entity>, round: nat, k: nat, dealt: seq<Provider>,
                           buckets: map<Entity, seq<Provider>>, moved: bool) {
    && Distinct(order) && k <= |order|
    && Dealing(block, order, round, k, dealt) && Left(block, order, round, k, buckets)
    && (if moved then round < |block| else Spent(block, order, round, k))
  }

  lemma VisitTakes(block: seq<Provider>, order: seq<Entity>, round: nat, k: nat, dealt: seq<Provider>,
                   buckets: map<Entity, seq<Provider>>, moved: bool)
    requires k < |order| && Visiting(block, order, round, k, dealt, buckets, moved)
    ensures var e := order[k];
            && e in buckets
            && (buckets[e] != [] ==>
                  Visiting(block, order, round, k + 1, dealt + [buckets[e][0]], buckets[e := buckets[e][1..]], true))
            && (buckets[e] == [] ==> Visiting(block, order, round, k + 1, dealt, buckets, moved))
  {
    LeftAfter(block, order, round, k, buckets);
    ByEntityHolds(block, order[k]);
    if buckets[order[k]] != [] {
      DealOne(block, order, round, k, dealt);
    } else {
      ShareSkip(block, order, round, k, dealt);
    }
  }

  lemma TurnEnds(block: seq<Provider>, order: seq<Entity>, round: nat, dealt: seq<Provider>,
                 buckets: map<Entity, seq<Provider>>)
    requires Visiting(block, order, round, |order|, dealt, buckets, true)
    ensures Visiting(block, order, round + 1, 0, dealt, buckets, false) && round < |block|
  {
    NextTurn(block, order, round, dealt);
    NextLeft(block, order, round, buckets);
  }

  lemma NextTurn(block: seq<Provider>, order: seq<Entity>, round: nat, dealt: seq<Provider>)
    requires Dealing(block, order, round, |order|, dealt)
    ensures Dealing(block, order, round + 1, 0, dealt)
  {
  }

  lemma NextLeft(block: seq<Provider>, order: seq<Entity>, round: nat, buckets: map<Entity, seq<Provider>>)
    requires Left(block, order, round, |order|, buckets)
    ensures Left(block, order, round + 1, 0, buckets)
  {
  }

  /** Once every bucket is spent, the whole block has been dealt. */
  lemma DealtAll(block: seq<Provider>, order: seq<Entity>, round: nat, dealt: seq<Provider>,
                 buckets: map<Entity, seq<Provider>>, full: map<Entity, seq<Provider>>)
    requires Visiting(block, order, round, |order|, dealt, buckets, false) && Bucketed(block, order, full)
    ensures Dealt(block, order, dealt)
  {
    forall e ensures ByEntity(dealt, e) == ByEntity(block, e) {
      if e in order {
        var j :| 0 <= j < |order| && order[j] == e;
        assert |ByEntity(block, order[j])| <= round;
        assert |ByEntity(dealt, order[j])| == |ByEntity(block, e)|;
      } else {
        NoneOf(block, e);
      }
    }
  }

  /** One bucket for each entity of the block, and the order in which they are visited. */
  ghost predicate Bucketed(block: seq<Provider>, order: seq<Entity>, buckets: map<Entity, seq<Provider>>) {
    && Distinct(order)
    && (forall p :: p in block ==> p.entity in order)
    && (forall e :: e in order ==> e in buckets && buckets[e] == ByEntity(block, e))
  }

  /** The first `k` entities have had all their providers dealt before this turn. */
  ghost predicate Spent(block: seq<Provider>, order: seq<Entity>, round: nat, k: nat) {
    forall j :: 0 <= j < |order| && j < k ==> |ByEntity(block, order[j])| <= round
  }

  lemma {:induction false} NoneOf(block: seq<Provider>, e: Entity)
    requires forall p :: p in block ==> p.entity != e
    ensures ByEntity(block, e) == []
  {
    if block != [] { NoneOf(block[..|block| - 1], e); }
  }

  lemma {:induction false} ByEntityHolds(block: seq<Provider>, e: Entity)
    ensures forall p :: p in ByEntity(block, e) ==> p.entity == e
    ensures |ByEntity(block, e)| <= |block|
  {
    if block != [] { ByEntityHolds(block[..|block| - 1], e); }
  }

  /** The buckets of `order_providers_for_quorum`: what each entity has left. */
  ghost predicate Left(block: seq<Provider>, order: seq<Entity>, round: nat, k: nat,
                       buckets: map<Entity, seq<Provider>>) {
    forall j :: 0 <= j < |order| ==>
      var e := order[j];
      e in buckets && buckets[e] == ByEntity(block, e)[Share(block, e, if j < k then round + 1 else round)..]
  }

  lemma LeftAfter(block: seq<Provider>, order: seq<Entity>, round: nat, k: nat, buckets: map<Entity, seq<Provider>>)
    requires Distinct(order) && k < |order| && Left(block, order, round, k, buckets)
    ensures var e := order[k];
            && e in buckets && (buckets[e] != [] <==> round < |ByEntity(block, e)|)
            && (buckets[e] != [] ==>
                  (buckets[e][0] == ByEntity(block, e)[round]
                    && Left(block, order, round, k + 1, buckets[e := buckets[e][1..]])))
            && (buckets[e] == [] ==> Left(block, order, round, k + 1, buckets))
  {
  }

  /** The round robin over the buckets of one category. */
  method DealInTurns(block: seq<Provider>, order: seq<Entity>, bucketsBefore: map<Entity, seq<Provider>>)
    returns (dealt: seq<Provider>)
    requires Bucketed(block, order, bucketsBefore)
    ensures Dealt(block, order, dealt)
  {
    hide *;
    var buckets := bucketsBefore;
    dealt := [];
    ghost var round := 0;
    DealingStarts(block, order, buckets);
    while true
      invariant Visiting(block, order, round, 0, dealt, buckets, false) && round <= |block|
      decreases |block| - round
    {
      var moved := false;
      for k := 0 to |order|
        invariant Visiting(block, order, round, k, dealt, buckets, moved)
      {
        var entity := order[k];
        VisitTakes(block, order, round, k, dealt, buckets, moved);
        if buckets[entity] != [] {
          dealt := dealt + [buckets[entity][0]];
          buckets := buckets[entity := buckets[entity][1..]];
          moved := true;
        }
      }
      if !moved {
        DealtAll(block, order, round, dealt, buckets, bucketsBefore);
        return;
      }
      TurnEnds(block, order, round, dealt, buckets);
      round := round + 1;
    }
  }

  // ----- the order before any selection -----

  /** The entities of a block, as they first appear. */
  function FirstSeen(block: seq<Provider>): seq<Entity> {
    if block == [] then []
    else
      var seen := FirstSeen(block[..|block| - 1]);
      var e := block[|block| - 1].entity;
      if e in seen then seen else seen + [e]
  }

  lemma {:induction false} FirstSeenDistinct(block: seq<Provider>)
    ensures Distinct(FirstSeen(block))
    ensures forall e :: e in FirstSeen(block) <==> exists i :: 0 <= i < |block| && block[i].entity == e
  {
    if block != [] {
      var n := |block| - 1;
      FirstSeenDistinct(block[..n]);
      forall e ensures e in FirstSeen(block) <==> exists i :: 0 <= i < |block| && block[i].entity == e {
        if e in FirstSeen(block) && e in FirstSeen(block[..n]) {
          var i :| 0 <= i < n && block[..n][i].entity == e;
          assert block[i].entity == e;
        }
        if i :| 0 <= i < |block| && block[i].entity == e {
          assert i == n || block[..n][i].entity == e;
        }
      }
    }
  }

  function FirstRank(block: seq<Provider>, e: Entity): int {
    if ByEntity(block, e) == [] then 0 else ByEntity(block, e)[0].rank
  }

  /** Entities by the rank of their first provider, ties as they first appear. */
  function EntityOrder(block: seq<Provider>): seq<Entity> {
    SortByKey(FirstSeen(block), e => (FirstRank(block, e), 0, 0))
  }

  lemma InCategoryNext(providers: seq<Provider>, c: Category, i: nat)
    requires i < |providers|
    ensures InCategory(providers[..i + 1], c) ==
            InCategory(providers[..i], c) + if providers[i].category == c then [providers[i]] else []
  {
    assert providers[..i + 1][..i] == providers[..i];
  }

  /** The buckets built so far from the providers of one category. */
  ghost predicate Filling(block: seq<Provider>, order: seq<Entity>, buckets: map<Entity, seq<Provider>>) {
    && order == FirstSeen(block)
    && (forall e :: e in buckets <==> e in order)
    && (forall e :: e in buckets ==> buckets[e] == ByEntity(block, e))
  }

  lemma NotSeen(block: seq<Provider>, e: Entity)
    requires e !in FirstSeen(block)
    ensures ByEntity(block, e) == []
  {
    FirstSeenDistinct(block);
    forall q | q in block ensures q.entity != e {
      var i :| 0 <= i < |block| && block[i] == q;
    }
    NoneOf(block, e);
  }

  lemma FillNext(block: seq<Provider>, order: seq<Entity>, buckets: map<Entity, seq<Provider>>, p: Provider)
    requires Filling(block, order, buckets)
    ensures Filling(block + [p], if p.entity in buckets then order else order + [p.entity],
                    buckets[p.entity := (if p.entity in buckets then buckets[p.entity] else []) + [p]])
  {
    hide ByEntity;
    assert (block + [p])[..|block|] == block;
    forall e ensures ByEntity(block + [p], e) == ByEntity(block, e) + if p.entity == e then [p] else [] {
      ByEntityAppend(block, p, e);
    }
    if p.entity !in buckets { NotSeen(block, p.entity); }
  }

  lemma FilledBuckets(block: seq<Provider>, order: seq<Entity>, buckets: map<Entity, seq<Provider>>)
    requires Filling(block, order, buckets)
    ensures Bucketed(block, EntityOrder(block), buckets)
  {
    var key: Name -> SortKey := e => (FirstRank(block, e), 0, 0);
    FirstSeenDistinct(block);
    SortIsStable(order, key);
    SortedDistinct(order, SortByKey(order, key));
    assert EntityOrder(block) == SortByKey(order, key);
  }

  /** One category of `order_providers_for_quorum`: bucket by entity, order the entities, deal. */
  method DealCategory(providers: seq<Provider>, category: Category) returns (dealt: seq<Provider>)
    ensures Dealt(InCategory(providers, category), EntityOrder(InCategory(providers, category)), dealt)
  {
    var buckets: map<Entity, seq<Provider>> := map[];
    var order: seq<Entity> := [];
    for i := 0 to |providers|
      invariant Filling(InCategory(providers[..i], category), order, buckets)
    {
      var p := providers[i];
      InCategoryNext(providers, category, i);
      ghost var block := InCategory(providers[..i], category);
      assert InCategory(providers[..i + 1], category) == if p.category == category then block + [p] else block;
      if p.category == category {
        FillNext(block, order, buckets, p);
        if p.entity !in buckets {
          order := order + [p.entity];
        }
        buckets := buckets[p.entity := (if p.entity in buckets then buckets[p.entity] else []) + [p]];
      }
    }
    assert providers[..|providers|] == providers;
    FilledBuckets(InCategory(providers, category), order, buckets);
    var rank := e => if e in buckets && buckets[e] != [] then (buckets[e][0].rank, 0, 0) else (0, 0, 0);
    SortAgrees(order, rank, e => (FirstRank(InCategory(providers, category), e), 0, 0));
    order := SortByKey(order, rank);
    dealt := DealInTurns(InCategory(providers, category), order, buckets);
  }

  function RequiredKeys(allOf: seq<Requirement>): set<Category> {
    if allOf == [] then {} else RequiredKeys(allOf[..|allOf| - 1]) + allOf[|allOf| - 1].Keys
  }

  function MinRank(block: seq<Provider>): int {
    if block == [] then 0
    else if |block| == 1 then block[0].rank
    else
      var rest := MinRank(block[..|block| - 1]);
      if block[|block| - 1].rank < rest then block[|block| - 1].rank else rest
  }

  function CategoryKey(providers: seq<Provider>, required: set<Category>, c: Category): SortKey {
    (if ANY in required || c in required then 0 else 1, MinRank(InCategory(providers, c)), Position(CATEGORIES, c))
  }

  function Present(providers: seq<Provider>, names: seq<Category>): seq<Category> {
    if names == [] then []
    else Present(providers, names[..|names| - 1]) +
         if InCategory(providers, names[|names| - 1]) != [] then [names[|names| - 1]] else []
  }

  /** The known categories in use: required ones first, then by best rank, then as listed. */
  function CategoryOrder(providers: seq<Provider>, strategy: Strategy): seq<Category> {
    var required := RequiredKeys(strategy.allOf);
    SortByKey(Present(providers, CATEGORIES), c => CategoryKey(providers, required, c))
  }

  function Flatten(blocks: seq<seq<Provider>>): seq<Provider> {
    if blocks == [] then [] else Flatten(blocks[..|blocks| - 1]) + blocks[|blocks| - 1]
  }

  /** One dealt block per category, in category order. */
  ghost predicate Blocks(providers: seq<Provider>, categories: seq<Category>, blocks: seq<seq<Provider>>) {
    && |blocks| == |categories|
    && forall k :: 0 <= k < |blocks| ==>
         Dealt(InCategory(providers, categories[k]), EntityOrder(InCategory(providers, categories[k])), blocks[k])
  }

  /** `output` deals the known categories in use, one block after another. */
  ghost predicate InDealingOrder(providers: seq<Provider>, strategy: Strategy, output: seq<Provider>) {
    exists blocks :: Blocks(providers, CategoryOrder(providers, strategy), blocks) && output == Flatten(blocks)
  }

  /** The part of `order_providers_for_quorum` before any selection. */
  method DealCategories(providers: seq<Provider>, strategy: Strategy)
    returns (output: seq<Provider>)
    ensures InDealingOrder(providers, strategy, output)
  {
    hide Dealt, EntityOrder, InCategory, CategoryOrder;
    var categories := CategoryOrder(providers, strategy);
    ghost var blocks: seq<seq<Provider>> := [];
    output := [];
    for k := 0 to |categories|
      invariant Blocks(providers, categories[..k], blocks) && output == Flatten(blocks)
    {
      var dealt := DealCategory(providers, categories[k]);
      assert (blocks + [dealt])[..|blocks|] == blocks;
      output, blocks := output + dealt, blocks + [dealt];
    }
    assert categories[..|categories|] == categories;
  }

  // ----- nothing is lost or repeated -----

  /** The providers whose category this build knows. */
  function Known(providers: seq<Provider>): seq<Provider> {
    if providers == [] then []
    else
      var p := providers[|providers| - 1];
      Known(providers[..|providers| - 1]) + if p.category in CATEGORIES then [p] else []
  }

  lemma {:induction false} KnownCount(providers: seq<Provider>, p: Provider)
    ensures multiset(Known(providers))[p] == if p.category in CATEGORIES then multiset(providers)[p] else 0
  {
    if providers != [] {
      var n := |providers| - 1;
      KnownCount(providers[..n], p);
      assert providers == providers[..n] + [providers[n]];
    }
  }

  lemma {:induction false} InCategoryCount(providers: seq<Provider>, c: Category, p: Provider)
    ensures multiset(InCategory(providers, c))[p] == if p.category == c then multiset(providers)[p] else 0
  {
    if providers != [] {
      var n := |providers| - 1;
      InCategoryCount(providers[..n], c, p);
      assert providers == providers[..n] + [providers[n]];
    }
  }

  lemma {:induction false} ByEntityCount(providers: seq<Provider>, p: Provider)
    ensures multiset(ByEntity(providers, p.entity))[p] == multiset(providers)[p]
  {
    if providers != [] {
      var n := |providers| - 1;
      ByEntityCount(providers[..n], p);
      assert providers == providers[..n] + [providers[n]];
      assert ByEntity(providers, p.entity) ==
             ByEntity(providers[..n], p.entity) + if providers[n].entity == p.entity then [providers[n]] else [];
      hide ByEntity;
    }
  }

  lemma BlockCount(providers: seq<Provider>, c: Category, order: seq<Entity>, dealt: seq<Provider>, p: Provider)
    requires Dealt(InCategory(providers, c), order, dealt)
    ensures multiset(dealt)[p] == if p.category == c then multiset(providers)[p] else 0
  {
    ByEntityCount(dealt, p);
    ByEntityCount(InCategory(providers, c), p);
    InCategoryCount(providers, c, p);
  }

  lemma {:induction false} BlocksCount(providers: seq<Provider>, categories: seq<Category>, blocks: seq<seq<Provider>>,
                                       p: Provider)
    requires Blocks(providers, categories, blocks) && Distinct(categories)
    ensures multiset(Flatten(blocks))[p] == if p.category in categories then multiset(providers)[p] else 0
  {
    hide Dealt, InCategory, EntityOrder;
    if blocks != [] {
      var n := |blocks| - 1;
      BlocksCount(providers, categories[..n], blocks[..n], p);
      BlockCount(providers, categories[n], EntityOrder(InCategory(providers, categories[n])), blocks[n], p);
      assert multiset(Flatten(blocks)) == multiset(Flatten(blocks[..n])) + multiset(blocks[n]);
      assert categories == categories[..n] + [categories[n]];
    }
  }

  lemma {:induction false} PresentOnce(providers: seq<Provider>, names: seq<Category>)
    requires Distinct(names)
    ensures Distinct(Present(providers, names))
    ensures forall c :: c in Present(providers, names) <==> c in names && InCategory(providers, c) != []
  {
    if names != [] {
      var n := |names| - 1;
      PresentOnce(providers, names[..n]);
      assert names == names[..n] + [names[n]];
    }
  }

  lemma CategoriesOnce(providers: seq<Provider>, strategy: Strategy)
    ensures Distinct(CategoryOrder(providers, strategy))
    ensures forall c :: c in CategoryOrder(providers, strategy) <==> c in CATEGORIES && InCategory(providers, c) != []
  {
    var required := RequiredKeys(strategy.allOf);
    var key: Name -> SortKey := c => CategoryKey(providers, required, c);
    var present := Present(providers, CATEGORIES);
    NamesDiffer();
    PresentOnce(providers, CATEGORIES);
    SortIsStable(present, key);
    SortedDistinct(present, SortByKey(present, key));
    assert CategoryOrder(providers, strategy) == SortByKey(present, key);
  }

  lemma {:induction false} RequiredKeysMean(allOf: seq<Requirement>, c: Category)
    ensures c in RequiredKeys(allOf) <==> exists r :: r in allOf && c in r
  {
    if allOf != [] {
      var (init, last) := (allOf[..|allOf| - 1], allOf[|allOf| - 1]);
      RequiredKeysMean(init, c);
      assert allOf == init + [last];
      if exists r :: r in allOf && c in r {
        var r :| r in allOf && c in r;
        assert r in init || r == last;
      }
      if exists r :: r in init && c in r {
        var r :| r in init && c in r;
        assert r in allOf;
      }
      if c in last { assert last in allOf; }
    }
  }

  lemma {:induction false} MinRankMeans(block: seq<Provider>)
    requires block != []
    ensures exists p :: p in block && p.rank == MinRank(block)
    ensures forall p :: p in block ==> MinRank(block) <= p.rank
  {
    var (init, last) := (block[..|block| - 1], block[|block| - 1]);
    assert block == init + [last];
    if init != [] {
      MinRankMeans(init);
      var p :| p in init && p.rank == MinRank(init);
      assert p in block;
    }
    assert last in block;
  }

  lemma {:induction false} InCategoryMeans(providers: seq<Provider>, c: Category)
    ensures forall p :: p in InCategory(providers, c) <==> p in providers && p.category == c
  {
    if providers != [] {
      InCategoryMeans(providers[..|providers| - 1], c);
      assert providers == providers[..|providers| - 1] + [providers[|providers| - 1]];
    }
  }

  lemma KeysInOrder(providers: seq<Provider>, strategy: Strategy, i: nat, j: nat)
    requires i < j < |CategoryOrder(providers, strategy)|
    ensures var required := RequiredKeys(strategy.allOf);
            var order := CategoryOrder(providers, strategy);
            && !KeyLess(CategoryKey(providers, required, order[j]), CategoryKey(providers, required, order[i]))
            && order[i] != order[j] && order[i] in CATEGORIES && order[j] in CATEGORIES
            && InCategory(providers, order[i]) != [] && InCategory(providers, order[j]) != []
  {
    var required := RequiredKeys(strategy.allOf);
    var key: Name -> SortKey := c => CategoryKey(providers, required, c);
    var present := Present(providers, CATEGORIES);
    CategoriesOnce(providers, strategy);
    NamesDiffer();
    PresentOnce(providers, CATEGORIES);
    SortIsStable(present, key);
    assert CategoryOrder(providers, strategy) == SortByKey(present, key);
    assert StablyBefore(present, key, SortByKey(present, key)[i], SortByKey(present, key)[j]);
    var order := CategoryOrder(providers, strategy);
    assert order[i] in order && order[j] in order;
    hide CategoryKey, SortByKey, Present, InCategory;
  }

  /** A category some `allOf` requirement names, or all of them when one asks `any`, comes before
      those none does; then the one with the better provider; then the one listed first. */
  lemma CategoriesInOrder(providers: seq<Provider>, strategy: Strategy, i: nat, j: nat)
    requires i < j < |CategoryOrder(providers, strategy)|
    ensures var (x, y) := (CategoryOrder(providers, strategy)[i], CategoryOrder(providers, strategy)[j]);
            (exists r :: r in strategy.allOf && (y in r || ANY in r)) ==>
            exists r :: r in strategy.allOf && (x in r || ANY in r)
    ensures var (x, y) := (CategoryOrder(providers, strategy)[i], CategoryOrder(providers, strategy)[j]);
            ((exists r :: r in strategy.allOf && (x in r || ANY in r)) ==>
             exists r :: r in strategy.allOf && (y in r || ANY in r)) ==>
            exists p :: p in providers && p.category == x
                        && forall q :: q in providers && q.category == y ==> p.rank <= q.rank
    ensures var (x, y) := (CategoryOrder(providers, strategy)[i], CategoryOrder(providers, strategy)[j]);
            ((exists r :: r in strategy.allOf && (x in r || ANY in r)) ==>
             exists r :: r in strategy.allOf && (y in r || ANY in r)) ==>
            (exists q :: q in providers && q.category == y
                         && forall p :: p in providers && p.category == x ==> q.rank <= p.rank) ==>
            exists a, b :: 0 <= a < b < |CATEGORIES| && CATEGORIES[a] == x && CATEGORIES[b] == y
  {
    KeysInOrder(providers, strategy, i, j);
    var (x, y) := (CategoryOrder(providers, strategy)[i], CategoryOrder(providers, strategy)[j]);
    AskedMeans(strategy.allOf, x);
    AskedMeans(strategy.allOf, y);
    BestOf(providers, x);
    BestOf(providers, y);
    ListedAt(x);
    ListedAt(y);
    hide CategoryOrder, RequiredKeys, MinRank, InCategory, Position;
  }

  lemma AskedMeans(allOf: seq<Requirement>, c: Category)
    ensures (ANY in RequiredKeys(allOf) || c in RequiredKeys(allOf)) <==> exists r :: r in allOf && (c in r || ANY in r)
  {
    RequiredKeysMean(allOf, c);
    RequiredKeysMean(allOf, ANY);
    hide RequiredKeys;
  }

  /** The best rank in a category is one of its providers', and none is better. */
  lemma BestOf(providers: seq<Provider>, c: Category)
    requires InCategory(providers, c) != []
    ensures var best := MinRank(InCategory(providers, c));
            && (exists p :: p in providers && p.category == c && p.rank == best)
            && forall p :: p in providers && p.category == c ==> best <= p.rank
  {
    MinRankMeans(InCategory(providers, c));
    InCategoryMeans(providers, c);
    hide MinRank, InCategory;
  }

  lemma ListedAt(c: Category)
    requires c in CATEGORIES
    ensures Position(CATEGORIES, c) < |CATEGORIES| && CATEGORIES[Position(CATEGORIES, c)] == c
  {
    NamesDiffer();
    var k :| 0 <= k < |CATEGORIES| && CATEGORIES[k] == c;
    PositionOf(CATEGORIES, k);
  }

  /** Where an entity is first seen. */
  ghost predicate FirstAt(block: seq<Provider>, e: Entity, i: nat) {
    i < |block| && block[i].entity == e && forall k :: 0 <= k < i ==> block[k].entity != e
  }

  lemma {:induction false} FirstRankMeans(block: seq<Provider>, e: Entity, i: nat)
    requires FirstAt(block, e, i)
    ensures ByEntity(block, e) != [] && ByEntity(block, e)[0] == block[i]
  {
    var n := |block| - 1;
    if i < n {
      FirstRankMeans(block[..n], e, i);
    } else {
      NoneOf(block[..n], e);
    }
  }

  /** Entities are seen in the order of their first providers. */
  lemma {:induction false} FirstSeenInOrder(block: seq<Provider>, i: nat, j: nat)
    requires i < j < |FirstSeen(block)|
    ensures exists a, b :: a < b && FirstAt(block, FirstSeen(block)[i], a) && FirstAt(block, FirstSeen(block)[j], b)
  {
    var n := |block| - 1;
    var seen := FirstSeen(block[..n]);
    FirstSeenDistinct(block[..n]);
    if j < |seen| {
      FirstSeenInOrder(block[..n], i, j);
      var a: nat, b: nat :| a < b && FirstAt(block[..n], seen[i], a) && FirstAt(block[..n], seen[j], b);
      assert FirstSeen(block)[i] == seen[i] && FirstSeen(block)[j] == seen[j];
      hide FirstSeen;
      FirstStays(block, seen[i], a);
      FirstStays(block, seen[j], b);
    } else {
      var a := SeenAt(block[..n], seen[i]);
      FirstStays(block, seen[i], a);
      assert FirstSeen(block)[i] == seen[i] && FirstSeen(block)[j] == block[n].entity;
      NewAtEnd(block);
    }
  }

  lemma FirstStays(block: seq<Provider>, e: Entity, i: nat)
    requires block != [] && FirstAt(block[..|block| - 1], e, i)
    ensures FirstAt(block, e, i)
  {
    forall k | 0 <= k < i ensures block[k].entity != e { assert block[..|block| - 1][k] == block[k]; }
  }

  lemma NewAtEnd(block: seq<Provider>)
    requires block != [] && block[|block| - 1].entity !in FirstSeen(block[..|block| - 1])
    ensures FirstAt(block, block[|block| - 1].entity, |block| - 1)
  {
    var n := |block| - 1;
    FirstSeenDistinct(block[..n]);
    hide FirstSeen;
    forall k | 0 <= k < n ensures block[k].entity != block[n].entity { assert block[..n][k].entity == block[k].entity; }
  }

  lemma {:induction false} SeenAt(block: seq<Provider>, e: Entity) returns (i: nat)
    requires e in FirstSeen(block)
    ensures FirstAt(block, e, i)
  {
    var n := |block| - 1;
    if e in FirstSeen(block[..n]) {
      i := SeenAt(block[..n], e);
    } else {
      FirstSeenDistinct(block[..n]);
      i := n;
      forall k | 0 <= k < n ensures block[k].entity != e { assert block[..n][k].entity == block[k].entity; }
    }
  }

  lemma RanksInOrder(block: seq<Provider>, i: nat, j: nat)
    requires i < j < |EntityOrder(block)|
    ensures var (a, b) := (EntityOrder(block)[i], EntityOrder(block)[j]);
            && a in FirstSeen(block) && b in FirstSeen(block)
            && (|| FirstRank(block, a) < FirstRank(block, b)
                || (FirstRank(block, a) == FirstRank(block, b)
                    && Position(FirstSeen(block), a) < Position(FirstSeen(block), b)))
  {
    var key: Name -> SortKey := e => (FirstRank(block, e), 0, 0);
    FirstSeenDistinct(block);
    SortIsStable(FirstSeen(block), key);
    SortedDistinct(FirstSeen(block), SortByKey(FirstSeen(block), key));
    assert EntityOrder(block) == SortByKey(FirstSeen(block), key);
    var sorted := SortByKey(FirstSeen(block), key);
    assert sorted[i] in sorted && sorted[j] in sorted;
    assert StablyBefore(FirstSeen(block), key, sorted[i], sorted[j]);
    hide FirstRank, SortByKey, FirstSeen, Position;
  }

  /** Entities come by the rank of their first provider, and as first seen where ranks tie. */
  lemma EntitiesInOrder(block: seq<Provider>, i: nat, j: nat) returns (a: nat, b: nat)
    requires i < j < |EntityOrder(block)|
    ensures FirstAt(block, EntityOrder(block)[i], a) && FirstAt(block, EntityOrder(block)[j], b)
    ensures block[a].rank < block[b].rank || (block[a].rank == block[b].rank && a < b)
  {
    RanksInOrder(block, i, j);
    var (x, y) := (EntityOrder(block)[i], EntityOrder(block)[j]);
    a, b := SeenBoth(block, x, y);
    FirstRankMeans(block, x, a);
    FirstRankMeans(block, y, b);
    hide EntityOrder, FirstSeen, ByEntity, Position, FirstAt;
  }

  lemma SeenBoth(block: seq<Provider>, x: Entity, y: Entity) returns (a: nat, b: nat)
    requires x in FirstSeen(block) && y in FirstSeen(block)
    ensures FirstAt(block, x, a) && FirstAt(block, y, b)
    ensures Position(FirstSeen(block), x) < Position(FirstSeen(block), y) ==> a < b
  {
    var seen := FirstSeen(block);
    FirstSeenDistinct(block);
    var i :| 0 <= i < |seen| && seen[i] == x;
    var j :| 0 <= j < |seen| && seen[j] == y;
    PositionOf(seen, i);
    PositionOf(seen, j);
    hide FirstSeen, Position, FirstAt;
    if i < j {
      FirstSeenInOrder(block, i, j);
      a, b :| a < b && FirstAt(block, x, a) && FirstAt(block, y, b);
    } else {
      a := SeenAt(block, x);
      b := SeenAt(block, y);
    }
  }

  lemma NamesDiffer()
    ensures Distinct(CATEGORIES)
  {
    assert INTERNAL.text[0] != DEDICATED_EXTERNAL.text[0] && INTERNAL.text[0] != SHARED_EXTERNAL.text[0]
           && DEDICATED_EXTERNAL.text[0] != SHARED_EXTERNAL.text[0];
  }

  /** Dealing permutes the providers with a known category and drops the others. */
  lemma DealingPermutes(providers: seq<Provider>, strategy: Strategy, output: seq<Provider>)
    requires InDealingOrder(providers, strategy, output)
    ensures multiset(output) == multiset(Known(providers))
  {
    var blocks :| Blocks(providers, CategoryOrder(providers, strategy), blocks) && output == Flatten(blocks);
    CategoriesOnce(providers, strategy);
    forall p ensures multiset(output)[p] == multiset(Known(providers))[p] {
      BlocksCount(providers, CategoryOrder(providers, strategy), blocks, p);
      KnownCount(providers, p);
      InCategoryCount(providers, p.category, p);
      if p.category in CATEGORIES && InCategory(providers, p.category) == [] {
        assert multiset(providers)[p] == 0;
      }
    }
  }

  // ----- the properties leave no choice -----

  /** An entity's last provider has its highest turn. */
  lemma {:induction false} LastTurn(dealt: seq<Provider>, e: Entity) returns (i: nat)
    requires ByEntity(dealt, e) != []
    ensures i < |dealt| && dealt[i].entity == e && Turn(dealt, i) == |ByEntity(dealt, e)| - 1
  {
    var n := |dealt| - 1;
    if dealt[n].entity == e {
      i := n;
    } else {
      i := LastTurn(dealt[..n], e);
      assert dealt[..n][..i] == dealt[..i];
    }
  }

  lemma PrefixInTurns(dealt: seq<Provider>, order: seq<Entity>, n: nat)
    requires InTurns(dealt, order) && n <= |dealt|
    ensures InTurns(dealt[..n], order)
  {
    forall i | 0 <= i < n ensures Turn(dealt[..n], i) == Turn(dealt, i) {
      assert dealt[..n][..i] == dealt[..i];
    }
  }

  /** No entity goes past the turn of the last provider, nor as far and later in the order. */
  lemma LastIsLatest(dealt: seq<Provider>, order: seq<Entity>, e: Entity)
    requires InTurns(dealt, order) && ByEntity(dealt, e) != []
    ensures var last := dealt[|dealt| - 1].entity;
            || last == e
            || |ByEntity(dealt, e)| < |ByEntity(dealt, last)|
            || (|ByEntity(dealt, e)| == |ByEntity(dealt, last)| && Position(order, e) < Position(order, last))
  {
    var i := LastTurn(dealt, e);
    assert Turn(dealt, |dealt| - 1) == |ByEntity(dealt, dealt[|dealt| - 1].entity)| - 1;
  }

  lemma BothEmpty(a: seq<Provider>, b: seq<Provider>)
    requires forall e :: ByEntity(a, e) == ByEntity(b, e)
    ensures a == [] <==> b == []
  {
    if a != [] { assert ByEntity(a, a[|a| - 1].entity) != []; }
    if b != [] { assert ByEntity(b, b[|b| - 1].entity) != []; }
  }

  lemma LastOfEntity(dealt: seq<Provider>)
    requires dealt != []
    ensures var last := dealt[|dealt| - 1];
            var all := ByEntity(dealt, last.entity);
            all != [] && all[|all| - 1] == last
  {
  }

  /** Taking the last provider away takes it from its own entity only. */
  lemma LastTaken(dealt: seq<Provider>, e: Entity)
    requires dealt != []
    ensures var (n, all) := (|dealt| - 1, ByEntity(dealt, e));
            if dealt[n].entity == e then all == ByEntity(dealt[..n], e) + [dealt[n]] else all == ByEntity(dealt[..n], e)
  {
  }

  /** The last provider is the same either way. */
  lemma SameLast(a: seq<Provider>, b: seq<Provider>, order: seq<Entity>)
    requires a != [] && b != [] && InTurns(a, order) && InTurns(b, order)
    requires forall e :: ByEntity(a, e) == ByEntity(b, e)
    ensures a[|a| - 1] == b[|b| - 1]
  {
    hide ByEntity, InTurns, Position;
    LastOfEntity(a);
    LastOfEntity(b);
    LastIsLatest(a, order, b[|b| - 1].entity);
    LastIsLatest(b, order, a[|a| - 1].entity);
  }

  /** Two ways of dealing the same providers in turns are the same. */
  lemma {:induction false} TurnsUnique(a: seq<Provider>, b: seq<Provider>, order: seq<Entity>)
    requires InTurns(a, order) && InTurns(b, order)
    requires forall e :: ByEntity(a, e) == ByEntity(b, e)
    ensures a == b
  {
    BothEmpty(a, b);
    hide ByEntity, InTurns;
    if a != [] {
      var (m, n) := (|a| - 1, |b| - 1);
      SameLast(a, b, order);
      PrefixInTurns(a, order, m);
      PrefixInTurns(b, order, n);
      forall e ensures ByEntity(a[..m], e) == ByEntity(b[..n], e) {
        LastTaken(a, e);
        LastTaken(b, e);
        SameStem(ByEntity(a[..m], e), ByEntity(b[..n], e), a[m]);
      }
      TurnsUnique(a[..m], b[..n], order);
      assert a == a[..m] + [a[m]] && b == b[..n] + [b[n]];
    }
  }

  lemma SameStem(a: seq<Provider>, b: seq<Provider>, last: Provider)
    ensures a + [last] == b + [last] ==> a == b
  {
    assert (a + [last])[..|a|] == a && (b + [last])[..|b|] == b;
  }

  /** So the dealing order is one order: what `DealCategories` promises is all it does. */
  lemma DealingOrderUnique(providers: seq<Provider>, strategy: Strategy, a: seq<Provider>, b: seq<Provider>)
    requires InDealingOrder(providers, strategy, a) && InDealingOrder(providers, strategy, b)
    ensures a == b
  {
    hide CategoryOrder, EntityOrder, InCategory, InTurns, Flatten;
    var categories := CategoryOrder(providers, strategy);
    var these :| Blocks(providers, categories, these) && a == Flatten(these);
    var those :| Blocks(providers, categories, those) && b == Flatten(those);
    forall k | 0 <= k < |categories| ensures these[k] == those[k] {
      TurnsUnique(these[k], those[k], EntityOrder(InCategory(providers, categories[k])));
    }
    assert these == those;
  }
}
