/** Deciding a requirement set: `augment`, `assign_entities`, `check_requirement_set` and
    `is_strategy_satisfiable`. */
module Matching {
  import opened TextOrder
  import opened Quorum

  // ----- one augmenting search -----

  /** `moved` gives `start` one more entity than `owner` did: one new entity is held, no
      entity is released, and every other category still holds as many as before. */
  ghost predicate Augments(listings: set<Listing>, owner: Owners, start: Category, moved: Owners) {
    && Valid(listings, moved)
    && (exists e :: e !in owner && moved.Keys == owner.Keys + {e})
    && forall c :: |Held(moved, c)| == |Held(owner, c)| + (if c == start then 1 else 0)
  }

  /** The categories of `seen` jointly list nothing but what they already hold. */
  ghost predicate Stuck(listings: set<Listing>, owner: Owners, start: Category, seen: set<Category>) {
    && start in seen
    && forall l :: l in listings && l.0 in seen ==> l.1 in owner && owner[l.1] in seen
  }

  /** A stuck set is a counting violation: nothing gives its categories as much as they
      hold now and `start` one more. */
  lemma StuckBlocks(listings: set<Listing>, owner: Owners, start: Category, seen: set<Category>, other: Owners)
    requires Stuck(listings, owner, start, seen) && Valid(listings, other)
    requires forall c :: c in seen ==> |Held(owner, c)| <= |Held(other, c)|
    ensures |Held(other, start)| <= |Held(owner, start)|
  {
    HeldByMonotone(owner, other, seen - {start});
    HeldBySplit(owner, seen, start);
    HeldBySplit(other, seen, start);
    forall e | e in HeldBy(other, seen) ensures e in HeldBy(owner, seen) {
      assert (other[e], e) in listings;
    }
    SubsetSize(HeldBy(other, seen), HeldBy(owner, seen));
  }

  /** The breadth-first tree: every category but `start` was reached from one a level below,
      by an entity that one lists and this one holds. */
  ghost predicate Tree(listings: set<Listing>, owner: Owners, start: Category,
                       via: map<Category, Listing>, level: map<Category, nat>) {
    && start in level && level[start] == 0
    && forall c :: c in level && c != start ==>
         && c in via
         && via[c] in listings
         && via[c].0 in level && level[via[c].0] + 1 == level[c]
         && via[c].1 in owner && owner[via[c].1] == c
  }

  /** The entities that `other` gives to someone `owner` did not. */
  function Moves(owner: Owners, other: Owners): set<Entity> {
    set e | e in other && (e !in owner || owner[e] != other[e])
  }

  /** Any assignment with which `start` holds one more entity and nobody less. */
  ghost predicate GivesOneMore(listings: set<Listing>, owner: Owners, start: Category, other: Owners) {
    Valid(listings, other) && forall c :: |Held(owner, c)| + (if c == start then 1 else 0) <= |Held(other, c)|
  }

  ghost predicate FewestMoves(listings: set<Listing>, owner: Owners, start: Category, moved: Owners) {
    forall other :: GivesOneMore(listings, owner, start, other) ==> |Moves(owner, moved)| <= |Moves(owner, other)|
  }

  /** What a category below level `top` lists is held, at most one level up. */
  ghost predicate Layered(listings: set<Listing>, owner: Owners, start: Category, level: map<Category, nat>, top: nat) {
    && start in level && level[start] == 0
    && forall l :: l in listings && l.0 in level && level[l.0] < top ==>
         l.1 in owner && owner[l.1] in level && level[owner[l.1]] <= level[l.0] + 1
  }

  function UpTo(level: map<Category, nat>, k: nat): set<Category> {
    set c | c in level && level[c] <= k
  }

  /** Giving `start` one more moves some entity to a category at each level. */
  lemma LevelMoves(listings: set<Listing>, owner: Owners, start: Category, level: map<Category, nat>, top: nat,
                   other: Owners, k: nat) returns (e: Entity)
    requires Layered(listings, owner, start, level, top) && k <= top
    requires GivesOneMore(listings, owner, start, other)
    ensures e in Moves(owner, other) && other[e] in level && level[other[e]] == k
  {
    var cs := UpTo(level, k);
    HeldByMonotone(owner, other, cs - {start});
    HeldBySplit(owner, cs, start);
    HeldBySplit(other, cs, start);
    if HeldBy(other, cs) <= HeldBy(owner, cs) { SubsetSize(HeldBy(other, cs), HeldBy(owner, cs)); }
    e :| e in HeldBy(other, cs) && e !in HeldBy(owner, cs);
    assert (other[e], e) in listings;
  }

  /** So no such assignment moves fewer entities than there are levels. */
  lemma {:induction false} LevelsMove(listings: set<Listing>, owner: Owners, start: Category, level: map<Category, nat>,
                                      top: nat, other: Owners, k: nat) returns (some: set<Entity>)
    requires Layered(listings, owner, start, level, top) && k <= top + 1
    requires GivesOneMore(listings, owner, start, other)
    ensures some <= Moves(owner, other) && |some| == k
    ensures forall e :: e in some ==> other[e] in level && level[other[e]] < k
  {
    hide Layered, GivesOneMore;
    if k == 0 {
      some := {};
    } else {
      var fewer := LevelsMove(listings, owner, start, level, top, other, k - 1);
      var e := LevelMoves(listings, owner, start, level, top, other, k - 1);
      some := fewer + {e};
    }
  }

  lemma ShortestIsFewest(listings: set<Listing>, owner: Owners, start: Category, level: map<Category, nat>, top: nat,
                         moved: Owners)
    requires Layered(listings, owner, start, level, top) && |Moves(owner, moved)| <= top + 1
    ensures FewestMoves(listings, owner, start, moved)
  {
    forall other | GivesOneMore(listings, owner, start, other) ensures |Moves(owner, moved)| <= |Moves(owner, other)| {
      var some := LevelsMove(listings, owner, start, level, top, other, top + 1);
      SubsetSize(some, Moves(owner, other));
    }
  }

  /** The state while the path is flipped: `at` is one over, the others are even, and
      nothing held by a category at or below `at` in the tree has moved yet. */
  ghost predicate Flipping(listings: set<Listing>, owner: Owners, level: map<Category, nat>,
                           moved: Owners, found: Entity, end: Category, at: Category) {
    && at in level && end in level && level[at] <= level[end]
    && found !in owner && moved.Keys == owner.Keys + {found}
    && Valid(listings, moved)
    && (forall c :: |Held(moved, c)| == |Held(owner, c)| + (if c == at then 1 else 0))
    && (forall e :: e in owner && owner[e] in level && level[owner[e]] <= level[at] ==> moved[e] == owner[e])
    && |Moves(owner, moved)| <= level[end] - level[at] + 1
  }

  lemma FlipStarts(listings: set<Listing>, owner: Owners, level: map<Category, nat>, found: Entity, at: Category)
    requires at in level && found !in owner && (at, found) in listings && Valid(listings, owner)
    ensures Flipping(listings, owner, level, owner[found := at], found, at, at)
  {
    forall c ensures |Held(owner[found := at], c)| == |Held(owner, c)| + (if c == at then 1 else 0) {
      GainOne(owner, found, at, c);
    }
    assert Moves(owner, owner[found := at]) == {found};
  }

  lemma MovesGrow(owner: Owners, moved: Owners, e: Entity, c: Category)
    ensures |Moves(owner, moved[e := c])| <= |Moves(owner, moved)| + 1
  {
    SubsetSize(Moves(owner, moved[e := c]), Moves(owner, moved) + {e});
  }

  /** Handing `e` from its holder to another takes one from the one and adds one to the other. */
  lemma HandOver(moved: Owners, e: Entity, to: Category, c: Category)
    requires e in moved && moved[e] != to
    ensures |Held(moved[e := to], c)| + (if c == moved[e] then 1 else 0) ==
            |Held(moved, c)| + (if c == to then 1 else 0)
  {
    if c == moved[e] {
      assert Held(moved, c) == Held(moved[e := to], c) + {e};
    } else if c == to {
      assert Held(moved[e := to], c) == Held(moved, c) + {e};
    } else {
      assert Held(moved[e := to], c) == Held(moved, c);
    }
  }

  lemma FlipMoves(listings: set<Listing>, owner: Owners, start: Category, via: map<Category, Listing>,
                  level: map<Category, nat>, moved: Owners, found: Entity, end: Category, at: Category)
    requires Tree(listings, owner, start, via, level)
    requires Flipping(listings, owner, level, moved, found, end, at) && at != start
    ensures Flipping(listings, owner, level, moved[via[at].1 := via[at].0], found, end, via[at].0)
  {
    var (previous, taken) := via[at];
    hide Moves, Held;
    MovesGrow(owner, moved, taken, previous);
    assert moved[taken] == at;
    forall c ensures |Held(moved[taken := previous], c)| == |Held(owner, c)| + (if c == previous then 1 else 0) {
      HandOver(moved, taken, previous, c);
    }
  }

  /** Nothing is more than one level above `floor`, and the queue climbs from there. */
  ghost predicate Climbs(level: map<Category, nat>, floor: nat, queue: seq<Category>) {
    && (forall c :: c in level ==> level[c] <= floor + 1)
    && (forall i :: 0 <= i < |queue| ==> queue[i] in level && floor <= level[queue[i]])
    && (forall i, j :: 0 <= i < j < |queue| ==> level[queue[i]] <= level[queue[j]])
  }

  /** What the categories in `done` list is held, at most one level up. */
  ghost predicate DoneHeld(listings: set<Listing>, owner: Owners, level: map<Category, nat>, done: set<Category>) {
    forall l :: l in listings && l.0 in done ==>
      l.1 in owner && owner[l.1] in level && (l.0 in level ==> level[owner[l.1]] <= level[l.0] + 1)
  }

  ghost predicate Within(owner: Owners, start: Category, level: map<Category, nat>, reached: set<Category>) {
    reached == level.Keys && reached <= owner.Values + {start}
  }

  lemma ClimbsOn(level: map<Category, nat>, floor: nat, queue: seq<Category>, holder: Category)
    requires Climbs(level, floor, queue) && holder !in level
    ensures Climbs(level[holder := floor + 1], floor, queue + [holder])
  {
  }

  lemma DoneHeldOn(listings: set<Listing>, owner: Owners, level: map<Category, nat>, floor: nat, queue: seq<Category>,
                   done: set<Category>, holder: Category)
    requires Climbs(level, floor, queue) && DoneHeld(listings, owner, level, done) && holder !in level
    ensures DoneHeld(listings, owner, level[holder := floor + 1], done)
  {
  }

  /** The search so far: `reached` is the tree, the `queue` is part of it and climbs from `floor`,
      and all that the categories in `done` list is held by reached categories. */
  ghost predicate Searching(listings: set<Listing>, owner: Owners, start: Category, via: map<Category, Listing>,
                            level: map<Category, nat>, floor: nat,
                            reached: set<Category>, queue: seq<Category>, done: set<Category>) {
    && Tree(listings, owner, start, via, level)
    && Within(owner, start, level, reached)
    && Climbs(level, floor, queue) && DoneHeld(listings, owner, level, done)
  }

  /** Every reached category is done, or `current`, or waiting. */
  ghost predicate Covered(reached: set<Category>, done: set<Category>, current: set<Category>, queue: seq<Category>) {
    forall c :: c in reached ==> c in done || c in current || c in queue
  }

  ghost predicate HeldUpTo(owner: Owners, reached: set<Category>, candidates: seq<Entity>, n: nat)
    requires n <= |candidates|
  {
    forall k :: 0 <= k < n ==> candidates[k] in owner && owner[candidates[k]] in reached
  }

  lemma NoneHeldYet(owner: Owners, reached: set<Category>, candidates: seq<Entity>)
    ensures HeldUpTo(owner, reached, candidates, 0)
  {
  }

  lemma HeldToo(owner: Owners, reached: set<Category>, candidates: seq<Entity>, i: nat)
    requires i < |candidates| && HeldUpTo(owner, reached, candidates, i)
    requires candidates[i] in owner && owner[candidates[i]] in reached
    ensures HeldUpTo(owner, reached, candidates, i + 1)
  {
  }

  /** Reaching `holder`, which holds `entity`, from `category`, which lists it. */
  lemma Reach(listings: set<Listing>, owner: Owners, start: Category, via: map<Category, Listing>,
              level: map<Category, nat>, floor: nat, reached: set<Category>, queue: seq<Category>, done: set<Category>,
              category: Category, candidates: seq<Entity>, i: nat)
    requires i < |candidates| && HeldUpTo(owner, reached, candidates, i)
    requires Searching(listings, owner, start, via, level, floor, reached, queue, done)
    requires Covered(reached, done, {category}, queue)
    requires category in reached && level[category] == floor && (category, candidates[i]) in listings
    requires candidates[i] in owner && owner[candidates[i]] !in reached
    ensures var entity, holder := candidates[i], owner[candidates[i]];
            && Searching(listings, owner, start, via[holder := (category, entity)], level[holder := floor + 1],
                         floor, reached + {holder}, queue + [holder], done)
            && Covered(reached + {holder}, done, {category}, queue + [holder])
            && HeldUpTo(owner, reached + {holder}, candidates, i + 1)
            && |reached + {holder}| == |reached| + 1
  {
    var holder := owner[candidates[i]];
    TreeGrows(listings, owner, start, via, level, category, candidates[i]);
    ClimbsOn(level, floor, queue, holder);
    DoneHeldOn(listings, owner, level, floor, queue, done, holder);
    CoveredOn(reached, done, {category}, queue, holder);
    HeldOn(owner, reached, candidates, i);
    WithinOn(owner, start, level, reached, candidates[i], floor + 1);
    hide Tree, Climbs, DoneHeld, Within, Covered, HeldUpTo;
  }

  lemma CoveredOn(reached: set<Category>, done: set<Category>, current: set<Category>, queue: seq<Category>,
                  holder: Category)
    requires Covered(reached, done, current, queue)
    ensures Covered(reached + {holder}, done, current, queue + [holder])
  {
    assert (queue + [holder])[|queue|] == holder;
  }

  lemma HeldOn(owner: Owners, reached: set<Category>, candidates: seq<Entity>, i: nat)
    requires i < |candidates| && HeldUpTo(owner, reached, candidates, i) && candidates[i] in owner
    ensures HeldUpTo(owner, reached + {owner[candidates[i]]}, candidates, i + 1)
  {
  }

  lemma WithinOn(owner: Owners, start: Category, level: map<Category, nat>, reached: set<Category>, entity: Entity,
                 l: nat)
    requires Within(owner, start, level, reached) && entity in owner && owner[entity] !in reached
    ensures Within(owner, start, level[owner[entity] := l], reached + {owner[entity]})
    ensures |reached + {owner[entity]}| == |reached| + 1
  {
  }

  lemma TreeGrows(listings: set<Listing>, owner: Owners, start: Category, via: map<Category, Listing>,
                  level: map<Category, nat>, category: Category, entity: Entity)
    requires Tree(listings, owner, start, via, level) && category in level && (category, entity) in listings
    requires entity in owner && owner[entity] !in level
    ensures Tree(listings, owner, start, via[owner[entity] := (category, entity)],
                 level[owner[entity] := level[category] + 1])
  {
  }

  /** The innermost loop of `augment`: hands `found` to `at` and passes entities back along
      the tree until `start` has gained one. */
  method FlipPath(ghost listings: set<Listing>, owner: Owners, start: Category, via: map<Category, Listing>,
                  ghost level: map<Category, nat>, found: Entity, end: Category)
    returns (moved: Owners)
    requires Valid(listings, owner) && Tree(listings, owner, start, via, level)
    requires end in level && found !in owner && (end, found) in listings
    ensures Augments(listings, owner, start, moved) && |Moves(owner, moved)| <= level[end] + 1
  {
    moved := owner[found := end];
    var at := end;
    FlipStarts(listings, owner, level, found, at);
    while at != start
      invariant Flipping(listings, owner, level, moved, found, end, at)
      decreases level[at]
    {
      FlipMoves(listings, owner, start, via, level, moved, found, end, at);
      var (previous, taken) := via[at];
      moved := moved[taken := previous];
      at := previous;
    }
  }

  lemma ScanEnds(pool: Pool, owner: Owners, reached: set<Category>, category: Category, candidates: seq<Entity>)
    requires category in pool && candidates == Ascending(pool[category])
    requires HeldUpTo(owner, reached, candidates, |candidates|)
    ensures forall l :: l in Listings(pool) && l.0 == category ==> l.1 in owner && owner[l.1] in reached
  {
    forall e | e in pool[category] ensures e in owner && owner[e] in reached {
      assert e in candidates;
    }
  }

  lemma SearchStarts(listings: set<Listing>, owner: Owners, start: Category)
    ensures Searching(listings, owner, start, map[], map[start := 0], 0, {start}, [start], {})
    ensures Covered({start}, {}, {}, [start])
  {
  }

  /** Taking a category off the queue to scan it. */
  lemma Dequeue(listings: set<Listing>, owner: Owners, start: Category, via: map<Category, Listing>,
                level: map<Category, nat>, floor: nat, reached: set<Category>, queue: seq<Category>,
                done: set<Category>)
    requires queue != [] && Searching(listings, owner, start, via, level, floor, reached, queue, done)
    requires Covered(reached, done, {}, queue)
    ensures queue[0] in level
    ensures Searching(listings, owner, start, via, level, level[queue[0]], reached, queue[1..], done)
    ensures Covered(reached, done, {queue[0]}, queue[1..]) && queue[0] in reached
    ensures |reached| <= |owner.Values + {start}|
  {
    SubsetSize(reached, owner.Values + {start});
  }

  /** A category all of whose listings are held by reached categories is done. */
  lemma Finish(pool: Pool, owner: Owners, start: Category, via: map<Category, Listing>,
               level: map<Category, nat>, floor: nat, reached: set<Category>, queue: seq<Category>, done: set<Category>,
               category: Category)
    requires Searching(Listings(pool), owner, start, via, level, floor, reached, queue, done)
    requires Covered(reached, done, {category}, queue) && category in reached && level[category] == floor
    requires category in pool ==> HeldUpTo(owner, reached, Ascending(pool[category]), |Ascending(pool[category])|)
    ensures Searching(Listings(pool), owner, start, via, level, floor, reached, queue, done + {category})
    ensures Covered(reached, done + {category}, {}, queue) && |reached| <= |owner.Values + {start}|
  {
    SubsetSize(reached, owner.Values + {start});
    if category in pool { ScanEnds(pool, owner, reached, category, Ascending(pool[category])); }
  }

  /** With the queue empty, everything reached is stuck. */
  lemma SearchEnds(listings: set<Listing>, owner: Owners, start: Category, via: map<Category, Listing>,
                   level: map<Category, nat>, floor: nat, reached: set<Category>, done: set<Category>)
    requires Searching(listings, owner, start, via, level, floor, reached, [], done) && Covered(reached, done, {}, [])
    ensures Stuck(listings, owner, start, reached)
  {
  }

  lemma SearchTree(listings: set<Listing>, owner: Owners, start: Category, via: map<Category, Listing>,
                   level: map<Category, nat>, floor: nat, reached: set<Category>, queue: seq<Category>,
                   done: set<Category>)
    requires Searching(listings, owner, start, via, level, floor, reached, queue, done)
    ensures Tree(listings, owner, start, via, level) && level.Keys == reached
  {
  }

  /** Everything below the level being scanned is done. */
  lemma SearchLayers(listings: set<Listing>, owner: Owners, start: Category, via: map<Category, Listing>,
                     level: map<Category, nat>, floor: nat, reached: set<Category>, queue: seq<Category>,
                     done: set<Category>,
                     category: Category)
    requires Searching(listings, owner, start, via, level, floor, reached, queue, done)
    requires Covered(reached, done, {category}, queue) && category in reached && level[category] == floor
    ensures Layered(listings, owner, start, level, floor)
  {
  }

  lemma Listed(pool: Pool, category: Category, i: nat)
    requires category in pool && i < |Ascending(pool[category])|
    ensures (category, Ascending(pool[category])[i]) in Listings(pool)
  {
    assert Ascending(pool[category])[i] in pool[category];
  }

  /** One augmenting search. Either one more entity is held and counted to `start`, at the cost of
      the fewest moves, or the categories searched hold all they list and nothing can help. */
  method Augment(pool: Pool, owner: Owners, start: Category)
    returns (ok: bool, moved: Owners, ghost seen: set<Category>)
    requires Valid(Listings(pool), owner)
    ensures ok ==> Augments(Listings(pool), owner, start, moved) && FewestMoves(Listings(pool), owner, start, moved)
    ensures !ok ==> moved == owner && Stuck(Listings(pool), owner, start, seen)
  {
    hide *;
    ghost var listings := Listings(pool);
    ghost var level: map<Category, nat> := map[start := 0];
    ghost var floor := 0;
    ghost var done: set<Category> := {};
    var via: map<Category, Listing> := map[];
    var queue := [start];
    var reached := {start};
    SearchStarts(listings, owner, start);
    while queue != []
      invariant Searching(listings, owner, start, via, level, floor, reached, queue, done)
      invariant Covered(reached, done, {}, queue)
      decreases |owner.Values + {start}| - |reached|, |queue|
    {
      Dequeue(listings, owner, start, via, level, floor, reached, queue, done);
      var category := queue[0];
      queue := queue[1..];
      floor := level[category];
      if category !in pool {
        Finish(pool, owner, start, via, level, floor, reached, queue, done, category);
        done := done + {category};
        continue;
      }
      ghost var rest, size := queue, |reached|;
      var candidates := Ascending(pool[category]);
      NoneHeldYet(owner, reached, candidates);
      for i := 0 to |candidates|
        invariant Searching(listings, owner, start, via, level, floor, reached, queue, done)
        invariant Covered(reached, done, {category}, queue)
        invariant category in reached && category in level && level[category] == floor
        invariant HeldUpTo(owner, reached, candidates, i)
        invariant |reached| > size || (|reached| == size && queue == rest)
      {
        var entity := candidates[i];
        Listed(pool, category, i);
        if entity !in owner {
          SearchTree(listings, owner, start, via, level, floor, reached, queue, done);
          SearchLayers(listings, owner, start, via, level, floor, reached, queue, done, category);
          moved := FlipPath(listings, owner, start, via, level, entity, category);
          ShortestIsFewest(listings, owner, start, level, floor, moved);
          return true, moved, {};
        } else if owner[entity] !in reached {
          var holder := owner[entity];
          Reach(listings, owner, start, via, level, floor, reached, queue, done, category, candidates, i);
          level := level[holder := floor + 1];
          reached := reached + {holder};
          via := via[holder := (category, entity)];
          queue := queue + [holder];
        } else {
          HeldToo(owner, reached, candidates, i);
        }
      }
      Finish(pool, owner, start, via, level, floor, reached, queue, done, category);
      done := done + {category};
    }
    SearchEnds(listings, owner, start, via, level, floor, reached, done);
    return false, owner, reached;
  }

  // ----- all slots of a requirement set -----

  /** With `slots[..i]` filled exactly and the search for `slots[i]` stuck, no filling of all
      the slots exists. */
  lemma StuckRefutes(listings: set<Listing>, slots: seq<Category>, i: nat, owner: Owners, seen: set<Category>)
    requires i < |slots| && Fills(listings, multiset(slots[..i]), owner)
    requires Stuck(listings, owner, slots[i], seen)
    ensures !Fillable(listings, multiset(slots))
  {
    if other :| Fills(listings, multiset(slots), other) {
      assert slots == slots[..i] + [slots[i]] + slots[i + 1..];
      assert multiset(slots) == multiset(slots[..i]) + multiset{slots[i]} + multiset(slots[i + 1..]);
      StuckBlocks(listings, owner, slots[i], seen, other);
      assert false;
    }
  }

  lemma FilledIsListed(pool: Pool, slots: seq<Category>, i: nat, owner: Owners)
    requires i < |slots| && Fills(Listings(pool), multiset(slots), owner)
    ensures slots[i] in pool
  {
    assert slots[i] in multiset(slots);
    assert |Held(owner, slots[i])| > 0;
    var e :| e in Held(owner, slots[i]);
    assert (owner[e], e) in Listings(pool);
  }

  lemma UnlistedRefutes(pool: Pool, slots: seq<Category>, i: nat)
    requires i < |slots| && slots[i] !in pool
    ensures !Fillable(Listings(pool), multiset(slots))
  {
    if owner :| Fills(Listings(pool), multiset(slots), owner) {
      FilledIsListed(pool, slots, i, owner);
    }
  }

  lemma FillsNext(listings: set<Listing>, slots: seq<Category>, i: nat, owner: Owners, next: Owners)
    requires i < |slots| && Fills(listings, multiset(slots[..i]), owner)
    requires Augments(listings, owner, slots[i], next)
    ensures Fills(listings, multiset(slots[..i + 1]), next)
  {
    assert slots[..i + 1] == slots[..i] + [slots[i]];
    assert multiset(slots[..i + 1]) == multiset(slots[..i]) + multiset{slots[i]};
  }

  lemma FreeEntityAugments(listings: set<Listing>, owner: Owners, e: Entity, c: Category)
    requires Valid(listings, owner) && e !in owner && (c, e) in listings
    ensures Augments(listings, owner, c, owner[e := c])
  {
    assert owner[e := c].Keys == owner.Keys + {e};
    forall other ensures |Held(owner[e := c], other)| == |Held(owner, other)| + (if other == c then 1 else 0) {
      GainOne(owner, e, c, other);
    }
  }

  /** What the fast path remembers of a category: a prefix of its entities that is held. */
  ghost predicate PrefixesHeld(pool: Pool, owner: Owners, lists: map<Category, seq<Entity>>,
                               ownedPrefix: map<Category, nat>) {
    && (forall c :: c in lists ==> c in pool && lists[c] == Ascending(pool[c]))
    && forall c :: c in ownedPrefix ==>
         c in lists && ownedPrefix[c] <= |lists[c]| && forall k :: 0 <= k < ownedPrefix[c] ==> lists[c][k] in owner
  }

  lemma PrefixesKept(pool: Pool, owner: Owners, next: Owners, lists: map<Category, seq<Entity>>,
                     ownedPrefix: map<Category, nat>, category: Category, prefix: nat)
    requires PrefixesHeld(pool, owner, lists, ownedPrefix) && owner.Keys <= next.Keys
    requires category in lists && prefix <= |lists[category]|
    requires forall k :: 0 <= k < prefix ==> lists[category][k] in owner
    ensures PrefixesHeld(pool, next, lists, ownedPrefix[category := prefix])
  {
  }

  /** Moves past the entities already found held, and past those held since. */
  method SkipOwned(list: seq<Entity>, owner: Owners, known: nat) returns (prefix: nat)
    requires known <= |list| && forall k :: 0 <= k < known ==> list[k] in owner
    ensures prefix <= |list| && forall k :: 0 <= k < prefix ==> list[k] in owner
    ensures prefix < |list| ==> list[prefix] !in owner
  {
    prefix := known;
    while prefix < |list| && list[prefix] in owner
      invariant prefix <= |list| && forall k :: 0 <= k < prefix ==> list[k] in owner
    {
      prefix := prefix + 1;
    }
  }

  lemma NothingFilled(listings: set<Listing>, slots: seq<Category>)
    ensures Fills(listings, multiset(slots[..0]), map[])
  {
    forall c ensures |Held(map[], c)| == 0 { assert Held(map[], c) == {}; }
  }

  lemma NoPrefixes(pool: Pool, owner: Owners)
    ensures PrefixesHeld(pool, owner, map[], map[])
  {
  }

  /** The list of a category, made when it is first asked for. */
  lemma ListMade(pool: Pool, owner: Owners, lists: map<Category, seq<Entity>>, ownedPrefix: map<Category, nat>,
                 category: Category)
    requires PrefixesHeld(pool, owner, lists, ownedPrefix) && category in pool
    ensures category in lists ==> lists[category] == Ascending(pool[category])
    ensures PrefixesHeld(pool, owner, lists[category := Ascending(pool[category])], ownedPrefix)
    ensures category in ownedPrefix ==>
              ownedPrefix[category] <= |Ascending(pool[category])|
              && forall k :: 0 <= k < ownedPrefix[category] ==> Ascending(pool[category])[k] in owner
  {
    hide Ascending;
  }

  lemma SameLists(lists: map<Category, seq<Entity>>, category: Category)
    requires category in lists
    ensures lists[category := lists[category]] == lists
  {
  }

  /** Fills the slots one after another, and stops at the first that cannot be filled. */
  method AssignEntities(pool: Pool, slots: seq<Category>) returns (ok: bool)
    ensures ok <==> Fillable(Listings(pool), multiset(slots))
  {
    hide *;
    ghost var listings := Listings(pool);
    var owner: Owners := map[];
    var lists: map<Category, seq<Entity>> := map[];
    var ownedPrefix: map<Category, nat> := map[];
    NothingFilled(listings, slots);
    NoPrefixes(pool, owner);
    for i := 0 to |slots|
      invariant Fills(listings, multiset(slots[..i]), owner)
      invariant PrefixesHeld(pool, owner, lists, ownedPrefix)
    {
      var category := slots[i];
      if category !in pool {
        UnlistedRefutes(pool, slots, i);
        return false;
      }
      ListMade(pool, owner, lists, ownedPrefix, category);
      if category !in lists {
        lists := lists[category := Ascending(pool[category])];
      } else {
        SameLists(lists, category);
      }
      var known := if category in ownedPrefix then ownedPrefix[category] else 0;
      var prefix := SkipOwned(lists[category], owner, known);
      ghost var before := owner;
      FillIsValid(listings, multiset(slots[..i]), owner);
      if prefix < |lists[category]| {
        var entity := lists[category][prefix];
        Listed(pool, category, prefix);
        owner := owner[entity := category];
        FreeEntityAugments(listings, before, entity, category);
      } else {
        var given, moved, seen := Augment(pool, owner, category);
        if !given {
          StuckRefutes(listings, slots, i, owner, seen);
          return false;
        }
        owner := moved;
      }
      FillsNext(listings, slots, i, before, owner);
      AugmentKeeps(listings, before, category, owner);
      PrefixesKept(pool, before, owner, lists, ownedPrefix, category, prefix);
      ownedPrefix := ownedPrefix[category := prefix];
    }
    assert slots[..|slots|] == slots;
    FillFound(listings, multiset(slots), owner);
    return true;
  }

  lemma FillIsValid(listings: set<Listing>, slots: multiset<Category>, owner: Owners)
    requires Fills(listings, slots, owner)
    ensures Valid(listings, owner)
  {
  }

  lemma FillFound(listings: set<Listing>, slots: multiset<Category>, owner: Owners)
    requires Fills(listings, slots, owner)
    ensures Fillable(listings, slots)
  {
  }

  /** An entity is only ever handed on, so what is held stays held. */
  lemma AugmentKeeps(listings: set<Listing>, owner: Owners, start: Category, moved: Owners)
    requires Augments(listings, owner, start, moved)
    ensures owner.Keys <= moved.Keys
  {
  }

  lemma {:induction false} SlotsGrow(reqs: seq<Requirement>, r: nat)
    requires r <= |reqs|
    ensures |Slots(reqs[..r])| <= |Slots(reqs)|
  {
    hide SlotsOf;
    if r == |reqs| {
      assert reqs[..r] == reqs;
    } else {
      var init := reqs[..|reqs| - 1];
      assert Slots(reqs) == Slots(init) + SlotsOf(reqs[|reqs| - 1]);
      hide Slots;
      SlotsGrow(init, r);
      assert init[..r] == reqs[..r];
    }
  }

  lemma {:induction false} SlotsOfKeysGrow(req: Requirement, keys: seq<Category>, k: nat)
    requires k <= |keys| && forall c :: c in keys ==> c in req
    ensures |SlotsOfKeys(req, keys[..k])| <= |SlotsOfKeys(req, keys)|
  {
    if k == |keys| {
      assert keys[..k] == keys;
    } else {
      var init := keys[..|keys| - 1];
      SlotsOfKeysGrow(req, init, k);
      assert init[..k] == keys[..k];
    }
  }

  /** A requirement set already asking for more slots than there are entities is not met. */
  lemma OversizedRefutes(listings: set<Listing>, reqs: seq<Requirement>, r: nat)
    requires r < |reqs|
    requires |Entities(listings)| < |Slots(reqs[..r])| + |SlotsOf(reqs[r])|
    ensures !Meets(listings, reqs)
  {
    hide SlotsOf, Fillable, Entities, AllResolved;
    SlotsGrow(reqs, r + 1);
    assert reqs[..r + 1][..r] == reqs[..r];
    assert Slots(reqs[..r + 1]) == Slots(reqs[..r]) + SlotsOf(reqs[r]);
    hide Slots;
    if Meets(listings, reqs) {
      MeetsNeeds(listings, reqs);
    }
  }

  lemma ResolvedNext(reqs: seq<Requirement>, r: nat)
    requires r < |reqs| && AllResolved(reqs[..r]) && Resolved(reqs[r])
    ensures AllResolved(reqs[..r + 1])
  {
    assert reqs[..r + 1] == reqs[..r] + [reqs[r]];
  }

  /** The running totals after the first `k` keys of a requirement. */
  ghost predicate KeysAdded(req: Requirement, keys: seq<Category>, k: nat, slots: seq<Category>, quorum: u64,
                            categories: seq<Category>, anyQuorum: u64)
    requires k <= |keys| && forall c :: c in keys ==> c in req
  {
    && (forall i :: 0 <= i < k ==> req[keys[i]].Count?)
    && categories == slots + SlotsOfKeys(req, keys[..k])
    && anyQuorum ==
       if (exists i :: 0 <= i < k && keys[i] == ANY) && req[ANY].Count? then SatAdd(quorum, req[ANY].n) else quorum
  }

  lemma KeysStart(req: Requirement, keys: seq<Category>, slots: seq<Category>, quorum: u64)
    requires forall c :: c in keys ==> c in req
    ensures KeysAdded(req, keys, 0, slots, quorum, slots, quorum)
  {
  }

  lemma KeyAdded(req: Requirement, keys: seq<Category>, k: nat, slots: seq<Category>, quorum: u64,
                 categories: seq<Category>, anyQuorum: u64)
    requires Distinct(keys) && k < |keys| && forall c :: c in keys ==> c in req
    requires KeysAdded(req, keys, k, slots, quorum, categories, anyQuorum) && req[keys[k]].Count?
    ensures keys[k] == ANY ==>
              KeysAdded(req, keys, k + 1, slots, quorum, categories, SatAdd(anyQuorum, req[keys[k]].n))
    ensures keys[k] != ANY ==>
              KeysAdded(req, keys, k + 1, slots, quorum, categories + Repeat(keys[k], req[keys[k]].n), anyQuorum)
  {
    assert keys[..k + 1][..k] == keys[..k];
  }

  /** A count larger than what is left of the pool makes the whole requirement too large. */
  lemma KeyOversized(size: nat, req: Requirement, k: nat, slots: seq<Category>, quorum: u64,
                     categories: seq<Category>, anyQuorum: u64)
    requires k < |Ascending(req.Keys)| && Ascending(req.Keys)[k] != ANY && req[Ascending(req.Keys)[k]].Count?
    requires KeysAdded(req, Ascending(req.Keys), k, slots, quorum, categories, anyQuorum)
    requires 0 < req[Ascending(req.Keys)[k]].n && |categories| + req[Ascending(req.Keys)[k]].n > size
    ensures SlotsOf(req) != [] && |slots| + |SlotsOf(req)| > size
  {
    hide Ascending;
    var keys := Ascending(req.Keys);
    assert keys[..k + 1][..k] == keys[..k];
    SlotsOfKeysGrow(req, keys, k + 1);
  }

  lemma MaxIsUnresolved(req: Requirement, c: Category)
    requires c in req && req[c].Max?
    ensures !Resolved(req)
  {
  }

  lemma RepeatSize(c: Category, n: nat)
    ensures |Repeat(c, n)| == n && (n == 0 ==> Repeat(c, n) == [])
  {
  }

  lemma KeysDone(req: Requirement, slots: seq<Category>, quorum: u64, categories: seq<Category>, anyQuorum: u64)
    requires KeysAdded(req, Ascending(req.Keys), |Ascending(req.Keys)|, slots, quorum, categories, anyQuorum)
    ensures Resolved(req) && categories == slots + SlotsOf(req)
    ensures anyQuorum == if ANY in req then SatAdd(quorum, req[ANY].n) else quorum
  {
    var keys := Ascending(req.Keys);
    assert keys[..|keys|] == keys;
  }

  /** One requirement of the set: its keys in order, each `any` count added up and each
      other count expanded, refusing `max` and a count larger than what is left of the pool. */
  method AddRequirement(size: nat, req: Requirement, slots: seq<Category>, quorum: u64)
    returns (ok: bool, categories: seq<Category>, anyQuorum: u64)
    ensures ok ==> Resolved(req) && categories == slots + SlotsOf(req)
    ensures ok ==> anyQuorum == if ANY in req then SatAdd(quorum, req[ANY].n) else quorum
    ensures ok <==> Resolved(req) && (SlotsOf(req) == [] || |slots| + |SlotsOf(req)| <= size)
  {
    categories, anyQuorum := slots, quorum;
    var keys := Ascending(req.Keys);
    AscendingDistinct(req.Keys);
    KeysStart(req, keys, slots, quorum);
    hide KeysAdded, SlotsOfKeys, SlotsOf, Resolved, Repeat, SatAdd, Ascending, Distinct;
    for k := 0 to |keys|
      invariant KeysAdded(req, keys, k, slots, quorum, categories, anyQuorum)
      invariant categories == slots || |categories| <= size
    {
      var category := keys[k];
      if req[category].Max? {
        MaxIsUnresolved(req, category);
        return false, categories, anyQuorum;
      }
      var n := req[category].n;
      KeyAdded(req, keys, k, slots, quorum, categories, anyQuorum);
      if category == ANY {
        anyQuorum := SatAdd(anyQuorum, n);
      } else {
        if n > if size < |categories| then 0 else size - |categories| {
          KeyOversized(size, req, k, slots, quorum, categories, anyQuorum);
          return false, categories, anyQuorum;
        }
        RepeatSize(category, n);
        categories := categories + Repeat(category, n);
      }
    }
    KeysDone(req, slots, quorum, categories, anyQuorum);
    ok := true;
  }

  /** Whether the pool meets `allOf` and `oneOf` together. */
  method CheckRequirementSet(pool: Pool, allOf: seq<Requirement>, oneOf: Requirement) returns (ok: bool)
    ensures ok <==> Meets(Listings(pool), allOf + [oneOf])
  {
    hide Fillable, Entities, SlotsOf;
    var size := |Entities(Listings(pool))|;
    var categories: seq<Category> := [];
    var anyQuorum: u64 := 0;
    var reqs := allOf + [oneOf];
    for r := 0 to |reqs|
      invariant AllResolved(reqs[..r])
      invariant categories == Slots(reqs[..r]) && anyQuorum == AnyQuorum(reqs[..r])
    {
      assert reqs[..r + 1][..r] == reqs[..r];
      ok, categories, anyQuorum := AddRequirement(size, reqs[r], categories, anyQuorum);
      if !ok {
        if Resolved(reqs[r]) { OversizedRefutes(Listings(pool), reqs, r); }
        return;
      }
      ResolvedNext(reqs, r);
    }
    assert reqs[..|reqs|] == reqs;
    if size < Max2(anyQuorum, |categories|) {
      if Meets(Listings(pool), reqs) { MeetsNeeds(Listings(pool), reqs); }
      return false;
    }
    ok := AssignEntities(pool, categories);
  }

  method IsStrategySatisfiable(pool: Pool, strategy: Strategy) returns (ok: bool)
    ensures ok <==> Satisfied(Listings(pool), strategy)
  {
    hide Meets;
    if strategy.oneOf == [] {
      ok := CheckRequirementSet(pool, strategy.allOf, map[]);
      assert Asked(strategy, 0) == strategy.allOf + [map[]];
      return;
    }
    for i := 0 to |strategy.oneOf|
      invariant forall k :: 0 <= k < i ==> !Meets(Listings(pool), Asked(strategy, k))
    {
      ok := CheckRequirementSet(pool, strategy.allOf, strategy.oneOf[i]);
      assert Asked(strategy, i) == strategy.allOf + [strategy.oneOf[i]];
      if ok {
        return;
      }
    }
    ok := false;
  }
}
