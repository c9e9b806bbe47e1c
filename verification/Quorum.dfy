/** What a quorum strategy asks of a pool of providers, without saying how to decide it. */
module Quorum {
  import opened TextOrder
  import opened Wrappers

  type Category = Name
  type Entity = Name

  /** One listing: an entity offered under a category. */
  type Listing = (Category, Entity)

  /** The shape `is_strategy_satisfiable` is evaluated over: distinct entities per category. */
  type Pool = map<Category, set<Entity>>

  /** Which category each entity in use is held by. */
  type Owners = map<Entity, Category>

  const INTERNAL: Category := Name("internal")
  const DEDICATED_EXTERNAL: Category := Name("dedicated_external")
  const SHARED_EXTERNAL: Category := Name("shared_external")
  const ANY: Category := Name("any")
  const CATEGORIES: seq<Category> := [INTERNAL, DEDICATED_EXTERNAL, SHARED_EXTERNAL]

  const U64_MAX: nat := 0xFFFF_FFFF_FFFF_FFFF
  type u64 = n: nat | n <= U64_MAX

  datatype Quorum = Count(n: u64) | Max
  type Requirement = map<Category, Quorum>
  datatype Strategy = Strategy(allOf: seq<Requirement>, oneOf: seq<Requirement>)

  /** `usize::saturating_add` on a 64-bit target. */
  function SatAdd(a: u64, b: u64): (r: u64) {
    if a + b <= U64_MAX then a + b else U64_MAX
  }

  function Max2(a: nat, b: nat): nat {
    if a < b then b else a
  }

  // ----- the pool as a set of listings -----

  function Listings(pool: Pool): set<Listing> {
    set c, e | c in pool && e in pool[c] :: (c, e)
  }

  /** One more entity under a category, which is made when it is not there. */
  function Insert(pool: Pool, c: Category, e: Entity): Pool {
    pool[c := (if c in pool then pool[c] else {}) + {e}]
  }

  lemma InsertLists(pool: Pool, c: Category, e: Entity)
    ensures Listings(Insert(pool, c, e)) == Listings(pool) + {(c, e)}
  {
  }

  function Entities(listings: set<Listing>): set<Entity> {
    set l | l in listings :: l.1
  }

  // ----- demand -----

  /** The category slots one requirement asks for, category by category in key order. */
  function SlotsOfKeys(req: Requirement, keys: seq<Category>): seq<Category>
    requires forall k :: k in keys ==> k in req
  {
    if keys == [] then []
    else
      var last := keys[|keys| - 1];
      SlotsOfKeys(req, keys[..|keys| - 1]) +
      if last != ANY && req[last].Count? then Repeat(last, req[last].n) else []
  }

  function Repeat(c: Category, n: nat): seq<Category> {
    seq(n, _ => c)
  }

  /** Every slot the requirements ask for; each needs an entity of its own. */
  function Slots(reqs: seq<Requirement>): seq<Category> {
    if reqs == [] then []
    else
      var last := reqs[|reqs| - 1];
      Slots(reqs[..|reqs| - 1]) + SlotsOf(last)
  }

  function SlotsOf(req: Requirement): seq<Category> {
    SlotsOfKeys(req, Ascending(req.Keys))
  }

  /** The sum of the `any` counts, saturating as `usize` does. */
  function AnyQuorum(reqs: seq<Requirement>): u64 {
    if reqs == [] then 0
    else
      var last := reqs[|reqs| - 1];
      if ANY in last && last[ANY].Count?
      then SatAdd(AnyQuorum(reqs[..|reqs| - 1]), last[ANY].n)
      else AnyQuorum(reqs[..|reqs| - 1])
  }

  /** The same sum without a bound. */
  function AnyTotal(reqs: seq<Requirement>): nat {
    if reqs == [] then 0
    else
      var last := reqs[|reqs| - 1];
      AnyTotal(reqs[..|reqs| - 1]) + if ANY in last && last[ANY].Count? then last[ANY].n else 0
  }

  /** Saturation loses nothing but what is past the bound. */
  lemma {:induction false} AnyQuorumSaturates(reqs: seq<Requirement>)
    ensures AnyQuorum(reqs) == if AnyTotal(reqs) <= U64_MAX then AnyTotal(reqs) else U64_MAX
  {
    if reqs != [] { AnyQuorumSaturates(reqs[..|reqs| - 1]); }
  }

  predicate Resolved(req: Requirement) {
    forall c :: c in req ==> req[c].Count?
  }

  ghost predicate AllResolved(reqs: seq<Requirement>) {
    forall i :: 0 <= i < |reqs| ==> Resolved(reqs[i])
  }

  /** The fewest distinct entities the requirements can be met with. */
  function Need(reqs: seq<Requirement>): nat {
    Max2(|Slots(reqs)|, AnyQuorum(reqs))
  }

  /** How many slots the requirements ask of `c`, with no reference to any order. */
  function Demand(reqs: seq<Requirement>, c: Category): nat {
    if reqs == [] then 0
    else
      var last := reqs[|reqs| - 1];
      Demand(reqs[..|reqs| - 1], c) + DemandOf(last, c)
  }

  function DemandOf(req: Requirement, c: Category): nat {
    if c != ANY && c in req && req[c].Count? then req[c].n else 0
  }

  // ----- meeting it -----

  function Held(owner: Owners, c: Category): set<Entity> {
    set e | e in owner && owner[e] == c
  }

  /** Every entity is held by a category that lists it. An entity has one holder, so a
      map of holders is an assignment in which no entity serves twice. */
  ghost predicate Valid(listings: set<Listing>, owner: Owners) {
    forall e :: e in owner ==> (owner[e], e) in listings
  }

  /** `owner` gives every category exactly the entities its slots ask for. */
  ghost predicate Fills(listings: set<Listing>, slots: multiset<Category>, owner: Owners) {
    && Valid(listings, owner)
    && forall c :: |Held(owner, c)| == slots[c]
  }

  ghost predicate Fillable(listings: set<Listing>, slots: multiset<Category>) {
    exists owner :: Fills(listings, slots, owner)
  }

  /** The same as a choice of a different listed entity for each slot. */
  ghost predicate Injects(listings: set<Listing>, slots: seq<Category>, chosen: seq<Entity>) {
    && |chosen| == |slots|
    && (forall i :: 0 <= i < |slots| ==> (slots[i], chosen[i]) in listings)
    && Distinct(chosen)
  }

  ghost predicate Meets(listings: set<Listing>, reqs: seq<Requirement>) {
    && AllResolved(reqs)
    && AnyQuorum(reqs) <= |Entities(listings)|
    && Fillable(listings, multiset(Slots(reqs)))
  }

  /** `allOf` together with each alternative; with no `oneOf`, with the empty one. */
  function Alternatives(strategy: Strategy): seq<Requirement> {
    if strategy.oneOf == [] then [map[]] else strategy.oneOf
  }

  /** What alternative `k` asks for, everything in `allOf` included. */
  function Asked(strategy: Strategy, k: nat): seq<Requirement>
    requires k < |Alternatives(strategy)|
  {
    strategy.allOf + [Alternatives(strategy)[k]]
  }

  ghost predicate Satisfied(listings: set<Listing>, strategy: Strategy) {
    exists k :: 0 <= k < |Alternatives(strategy)| && Meets(listings, Asked(strategy, k))
  }

  // ----- facts about sets of holders -----

  /** The entities held by any of `cs`. */
  function HeldBy(owner: Owners, cs: set<Category>): set<Entity> {
    set e | e in owner && owner[e] in cs
  }

  lemma HeldBySplit(owner: Owners, cs: set<Category>, c: Category)
    requires c in cs
    ensures |HeldBy(owner, cs)| == |HeldBy(owner, cs - {c})| + |Held(owner, c)|
  {
    var rest := HeldBy(owner, cs - {c});
    assert HeldBy(owner, cs) == rest + Held(owner, c);
    assert rest !! Held(owner, c);
  }

  /** If each category of `cs` holds at least as much under `b` as under `a`, so do they together. */
  lemma {:induction false} HeldByMonotone(a: Owners, b: Owners, cs: set<Category>)
    requires forall c :: c in cs ==> |Held(a, c)| <= |Held(b, c)|
    ensures |HeldBy(a, cs)| <= |HeldBy(b, cs)|
  {
    if cs == {} {
      assert HeldBy(a, cs) == {};
    } else {
      var c :| c in cs;
      HeldByMonotone(a, b, cs - {c});
      HeldBySplit(a, cs, c);
      HeldBySplit(b, cs, c);
    }
  }

  /** An exact filling uses one entity per slot. */
  lemma {:induction false} FillSize(slots: seq<Category>, owner: Owners)
    requires forall c :: |Held(owner, c)| == multiset(slots)[c]
    ensures |owner| == |slots|
  {
    if slots == [] {
      forall c ensures Held(owner, c) == {} { assert |Held(owner, c)| == 0; }
      assert forall e :: e in owner ==> e in Held(owner, owner[e]);
      assert owner == map[];
    } else {
      var e, rest := DropSlot(slots, owner);
      FillSize(slots[..|slots| - 1], rest);
      assert owner.Keys == rest.Keys + {e};
    }
  }

  /** Taking away the last slot together with one entity its category holds. */
  lemma DropSlot(slots: seq<Category>, owner: Owners) returns (e: Entity, rest: Owners)
    requires slots != []
    requires forall c :: |Held(owner, c)| == multiset(slots)[c]
    ensures e in owner && owner[e] == slots[|slots| - 1] && rest == owner - {e}
    ensures forall c :: |Held(rest, c)| == multiset(slots[..|slots| - 1])[c]
  {
    var last := slots[|slots| - 1];
    var init := slots[..|slots| - 1];
    assert slots == init + [last];
    assert multiset(slots) == multiset(init) + multiset{last};
    assert |Held(owner, last)| > 0;
    e :| e in Held(owner, last);
    rest := owner - {e};
    assert rest[e := last] == owner;
    forall c ensures |Held(rest, c)| == multiset(init)[c] {
      GainOne(rest, e, last, c);
    }
  }

  /** The map of holders and the slot-by-slot choice say the same. */
  lemma FillableIffInjects(listings: set<Listing>, slots: seq<Category>)
    ensures Fillable(listings, multiset(slots)) <==> exists chosen :: Injects(listings, slots, chosen)
  {
    if Fillable(listings, multiset(slots)) {
      var owner :| Fills(listings, multiset(slots), owner);
      var chosen := ChooseFromFill(listings, slots, owner);
    }
    if chosen :| Injects(listings, slots, chosen) {
      var owner := FillFromChoice(listings, slots, chosen);
    }
  }

  lemma {:induction false} ChooseFromFill(listings: set<Listing>, slots: seq<Category>, owner: Owners)
    returns (chosen: seq<Entity>)
    requires Fills(listings, multiset(slots), owner)
    ensures Injects(listings, slots, chosen)
    ensures forall e :: e in chosen ==> e in owner
  {
    if slots == [] {
      chosen := [];
    } else {
      var e, rest := DropSlot(slots, owner);
      var init := ChooseFromFill(listings, slots[..|slots| - 1], rest);
      chosen := init + [e];
    }
  }

  lemma {:induction false} FillFromChoice(listings: set<Listing>, slots: seq<Category>, chosen: seq<Entity>)
    returns (owner: Owners)
    requires Injects(listings, slots, chosen)
    ensures Fills(listings, multiset(slots), owner)
    ensures forall e :: e in owner ==> e in chosen
  {
    if slots == [] {
      owner := map[];
      forall c ensures |Held(owner, c)| == 0 { assert Held(owner, c) == {}; }
    } else {
      var n := |slots| - 1;
      var before := FillFromChoice(listings, slots[..n], chosen[..n]);
      owner := before[chosen[n] := slots[n]];
      assert slots == slots[..n] + [slots[n]];
      assert chosen[n] !in before;
      forall c ensures |Held(owner, c)| == multiset(slots)[c] {
        GainOne(before, chosen[n], slots[n], c);
      }
    }
  }

  /** A fresh entity given to `c` adds one to `c` and nothing elsewhere. */
  lemma GainOne(owner: Owners, e: Entity, c: Category, other: Category)
    requires e !in owner
    ensures |Held(owner[e := c], other)| == |Held(owner, other)| + (if other == c then 1 else 0)
  {
    var after := owner[e := c];
    if other == c {
      assert Held(after, other) == Held(owner, other) + {e};
    } else {
      assert Held(after, other) == Held(owner, other);
    }
  }

  // ----- more listings never hurt -----

  lemma EntitiesMonotone(few: set<Listing>, many: set<Listing>)
    requires few <= many
    ensures Entities(few) <= Entities(many)
    ensures |Entities(few)| <= |Entities(many)|
  {
    SubsetSize(Entities(few), Entities(many));
  }

  lemma {:induction false} SubsetSize<T>(a: set<T>, b: set<T>)
    requires a <= b
    ensures |a| <= |b|
    ensures |a| == |b| ==> a == b
  {
    assert b == a + (b - a);
    assert |b| == |a| + |b - a|;
  }

  lemma MeetsMonotone(few: set<Listing>, many: set<Listing>, reqs: seq<Requirement>)
    requires few <= many && Meets(few, reqs)
    ensures Meets(many, reqs)
  {
    EntitiesMonotone(few, many);
    var owner :| Fills(few, multiset(Slots(reqs)), owner);
    assert Fills(many, multiset(Slots(reqs)), owner);
  }

  /** Satisfiability is monotone in the votes. */
  lemma SatisfiedMonotone(few: set<Listing>, many: set<Listing>, strategy: Strategy)
    requires few <= many && Satisfied(few, strategy)
    ensures Satisfied(many, strategy)
  {
    var k :| 0 <= k < |Alternatives(strategy)| && Meets(few, Asked(strategy, k));
    MeetsMonotone(few, many, Asked(strategy, k));
  }

  /** An owned entity is listed, so a filling needs that many entities in the pool. */
  lemma FillFits(listings: set<Listing>, owner: Owners)
    requires Valid(listings, owner)
    ensures owner.Keys <= Entities(listings) && |owner| <= |Entities(listings)|
  {
    forall e | e in owner ensures e in Entities(listings) {
      assert (owner[e], e) in listings;
      assert (owner[e], e).1 == e;
    }
    SubsetSize(owner.Keys, Entities(listings));
  }

  /** No pool smaller than `Need` meets the requirements. */
  lemma MeetsNeeds(listings: set<Listing>, reqs: seq<Requirement>)
    requires Meets(listings, reqs)
    ensures Need(reqs) <= |Entities(listings)|
  {
    var owner :| Fills(listings, multiset(Slots(reqs)), owner);
    FillSize(Slots(reqs), owner);
    FillFits(listings, owner);
  }

  // ----- what the slots mean -----

  lemma {:induction false} SlotsOfKeysCount(req: Requirement, keys: seq<Category>, c: Category)
    requires forall k :: k in keys ==> k in req
    requires Distinct(keys)
    ensures multiset(SlotsOfKeys(req, keys))[c] ==
            if c != ANY && c in keys && req[c].Count? then req[c].n else 0
  {
    if keys != [] {
      var last := keys[|keys| - 1];
      var init := keys[..|keys| - 1];
      assert keys == init + [last];
      SlotsOfKeysCount(req, init, c);
      if last != ANY && req[last].Count? {
        RepeatCount(last, req[last].n, c);
      }
    }
  }

  lemma {:induction false} RepeatCount(x: Category, n: nat, c: Category)
    ensures multiset(Repeat(x, n))[c] == if c == x then n else 0
  {
    if n > 0 {
      assert Repeat(x, n) == Repeat(x, n - 1) + [x];
      RepeatCount(x, n - 1, c);
    }
  }

  lemma SlotsOfCount(req: Requirement, c: Category)
    ensures multiset(SlotsOf(req))[c] == DemandOf(req, c)
  {
    AscendingDistinct(req.Keys);
    SlotsOfKeysCount(req, Ascending(req.Keys), c);
  }

  /** The expansion into slots holds each category exactly as often as the requirements ask. */
  lemma {:induction false} SlotsMatchDemand(reqs: seq<Requirement>, c: Category)
    ensures multiset(Slots(reqs))[c] == Demand(reqs, c)
  {
    if reqs != [] {
      var last := reqs[|reqs| - 1];
      SlotsMatchDemand(reqs[..|reqs| - 1], c);
      SlotsOfCount(last, c);
    }
  }
}
