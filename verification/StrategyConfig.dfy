/** Validating a provider file against a strategy file, and resolving `max`, so that what was
    accepted is what the runtime evaluates. */
module StrategyConfig {
  import opened TextOrder
  import opened Quorum
  import opened Matching
  import opened Wrappers

  datatype ProviderEntry = ProviderEntry(uri: string, category: Category, entity: Entity)
  type Endpoints = map<Name, seq<ProviderEntry>>
  type ProvidersFile = map<Name, Endpoints>
  datatype StrategyFile = StrategyFile(default: Option<Strategy>, chains: map<Name, map<Name, Strategy>>)

  datatype Problem =
    | MissingDefault
    | UnlistedCategory(category: Category)
    | RestrictionViolation(violated: Category, resolved: u64, floor: u64)
    | NotSatisfiable(chain: Name, endpoint: Name)

  datatype Result<+T> = Ok(value: T) | Err(problem: Problem)

  // ----- pools -----

  /** What a list of entries offers, under the categories this build knows. */
  function Offered(entries: seq<ProviderEntry>): set<Listing> {
    set p | p in entries && p.category in CATEGORIES :: (p.category, p.entity)
  }

  lemma OfferedNext(entries: seq<ProviderEntry>, i: nat)
    requires i < |entries|
    ensures Offered(entries[..i + 1]) == Offered(entries[..i]) +
            if entries[i].category in CATEGORIES then {(entries[i].category, entries[i].entity)} else {}
  {
    assert entries[..i + 1] == entries[..i] + [entries[i]];
  }

  /** Every known category with its distinct entities, present even when it has none. */
  function SeededPool(entries: seq<ProviderEntry>): Pool {
    map c | c in CATEGORIES :: set p | p in entries && p.category == c :: p.entity
  }

  lemma SeededLists(entries: seq<ProviderEntry>)
    ensures Listings(SeededPool(entries)) == Offered(entries)
  {
    var pool := SeededPool(entries);
    forall l | l in Offered(entries) ensures l in Listings(pool) {
      var p :| p in entries && p.category in CATEGORIES && l == (p.category, p.entity);
      assert p.entity in pool[p.category];
    }
  }

  /** A pool is determined by its categories and what it lists. */
  lemma PoolUnique(a: Pool, b: Pool)
    requires a.Keys == b.Keys && Listings(a) == Listings(b)
    ensures a == b
  {
    forall c | c in a ensures a[c] == b[c] {
      forall e ensures e in a[c] <==> e in b[c] {
        assert e in a[c] <==> (c, e) in Listings(a);
        assert e in b[c] <==> (c, e) in Listings(b);
      }
    }
  }

  /** `entities_per_category`. */
  method EntitiesPerCategory(entries: seq<ProviderEntry>) returns (out: Pool)
    ensures out == SeededPool(entries)
  {
    out := map c | c in CATEGORIES :: {};
    assert Listings(out) == {};
    for i := 0 to |entries|
      invariant out.Keys == (set c | c in CATEGORIES) && Listings(out) == Offered(entries[..i])
    {
      var entry := entries[i];
      OfferedNext(entries, i);
      if entry.category in out {
        InsertLists(out, entry.category, entry.entity);
        out := Insert(out, entry.category, entry.entity);
      }
    }
    assert entries[..|entries|] == entries;
    SeededLists(entries);
    PoolUnique(out, SeededPool(entries));
  }

  datatype Voter = Voter(category: Category, entity: Entity)

  function Voiced(voters: seq<Voter>): set<Listing> {
    set v | v in voters :: (v.category, v.entity)
  }

  /** `voter_entities`: only the categories some voter has. */
  method VoterEntities(voters: seq<Voter>) returns (out: Pool)
    ensures Listings(out) == Voiced(voters)
    ensures forall c :: c in out ==> out[c] != {}
  {
    out := map[];
    for i := 0 to |voters|
      invariant Listings(out) == Voiced(voters[..i]) && forall c :: c in out ==> out[c] != {}
    {
      var v := voters[i];
      assert voters[..i + 1] == voters[..i] + [v];
      InsertLists(out, v.category, v.entity);
      out := Insert(out, v.category, v.entity);
    }
    assert voters[..|voters|] == voters;
  }

  // ----- max -----

  /** A `usize` length `as u64`. */
  function AsU64(n: nat): u64 {
    n % (U64_MAX + 1)
  }

  /** What `max` stands for under a category. */
  function Actual(pool: Pool, c: Category): u64 {
    AsU64(if c == ANY then |Entities(Listings(pool))| else if c in pool then |pool[c]| else 0)
  }

  /** What `max` comes to, counted from the entries: under a known category its own distinct
      entities, under `any` those of all known categories, and nothing under another name. */
  lemma MaxCounts(entries: seq<ProviderEntry>, c: Category)
    ensures c in CATEGORIES ==>
              Actual(SeededPool(entries), c) == AsU64(|set p | p in entries && p.category == c :: p.entity|)
    ensures c == ANY ==>
              Actual(SeededPool(entries), c) == AsU64(|set p | p in entries && p.category in CATEGORIES :: p.entity|)
    ensures c !in CATEGORIES && c != ANY ==> Actual(SeededPool(entries), c) == 0
  {
    AnyIsNoCategory();
    SeededLists(entries);
    var all := set p | p in entries && p.category in CATEGORIES :: p.entity;
    assert Entities(Offered(entries)) == all by {
      forall e | e in all ensures e in Entities(Offered(entries)) {
        var p :| p in entries && p.category in CATEGORIES && p.entity == e;
        assert (p.category, p.entity) in Offered(entries);
      }
    }
    hide AsU64;
  }

  lemma AnyIsNoCategory()
    ensures ANY !in CATEGORIES
  {
    assert ANY.text[0] != INTERNAL.text[0] && ANY.text[0] != DEDICATED_EXTERNAL.text[0]
           && ANY.text[0] != SHARED_EXTERNAL.text[0];
  }

  /** A count that a `usize` holds is cast as it is. */
  lemma CastKeepsCount(n: nat)
    requires n <= U64_MAX
    ensures AsU64(n) == n
  {
  }

  function ResolveQuorum(pool: Pool, c: Category, q: Quorum): Quorum {
    if q.Max? then Count(Actual(pool, c)) else q
  }

  function ResolveRequirement(pool: Pool, req: Requirement): Requirement {
    map c | c in req :: ResolveQuorum(pool, c, req[c])
  }

  function ResolveAll(pool: Pool, reqs: seq<Requirement>): seq<Requirement> {
    if reqs == [] then []
    else ResolveAll(pool, reqs[..|reqs| - 1]) + [ResolveRequirement(pool, reqs[|reqs| - 1])]
  }

  /** The strategy with every `max` replaced by the pool's count. */
  function ResolveStrategy(pool: Pool, strategy: Strategy): Strategy {
    Strategy(ResolveAll(pool, strategy.allOf), ResolveAll(pool, strategy.oneOf))
  }

  predicate BelowFloor(pool: Pool, minimum: Option<u64>, req: Requirement, c: Category) {
    c in req && req[c].Max? && minimum.Some? && Actual(pool, c) < minimum.value
  }

  ghost predicate WithinFloor(pool: Pool, minimum: Option<u64>, reqs: seq<Requirement>) {
    forall i, c :: 0 <= i < |reqs| ==> !BelowFloor(pool, minimum, reqs[i], c)
  }

  /** `max` resolved at the first `k` keys, the rest as written. */
  ghost predicate ResolvedUpTo(pool: Pool, minimum: Option<u64>, req: Requirement, keys: seq<Category>, k: nat,
                               resolved: Requirement)
  {
    && resolved.Keys == req.Keys && k <= |keys| && Distinct(keys)
    && (forall i :: 0 <= i < |keys| ==> keys[i] in req)
    && (forall i :: 0 <= i < |keys| ==>
          resolved[keys[i]] == if i < k then ResolveQuorum(pool, keys[i], req[keys[i]]) else req[keys[i]])
    && (forall i :: 0 <= i < k ==> !BelowFloor(pool, minimum, req, keys[i]))
  }

  lemma ResolveNext(pool: Pool, minimum: Option<u64>, req: Requirement, keys: seq<Category>, k: nat,
                    resolved: Requirement)
    requires k < |keys| && ResolvedUpTo(pool, minimum, req, keys, k, resolved)
    requires !BelowFloor(pool, minimum, req, keys[k])
    ensures ResolvedUpTo(pool, minimum, req, keys, k + 1,
                         resolved[keys[k] := ResolveQuorum(pool, keys[k], req[keys[k]])])
    ensures !req[keys[k]].Max? ==> ResolvedUpTo(pool, minimum, req, keys, k + 1, resolved)
  {
  }

  lemma UnresolvedAt(pool: Pool, minimum: Option<u64>, req: Requirement, keys: seq<Category>, k: nat,
                     resolved: Requirement)
    requires k < |keys| && ResolvedUpTo(pool, minimum, req, keys, k, resolved)
    ensures keys[k] in req && keys[k] in resolved && resolved[keys[k]] == req[keys[k]]
    ensures forall floor: u64 :: minimum == Some(floor) ==>
              (BelowFloor(pool, minimum, req, keys[k]) <==> req[keys[k]].Max? && Actual(pool, keys[k]) < floor)
    ensures minimum.None? ==> !BelowFloor(pool, minimum, req, keys[k])
    ensures req[keys[k]].Max? ==> ResolveQuorum(pool, keys[k], req[keys[k]]) == Count(Actual(pool, keys[k]))
    ensures !req[keys[k]].Max? ==> !BelowFloor(pool, minimum, req, keys[k])
  {
  }

  lemma ResolvedAtStart(pool: Pool, minimum: Option<u64>, req: Requirement)
    ensures ResolvedUpTo(pool, minimum, req, Ascending(req.Keys), 0, req)
  {
    AscendingDistinct(req.Keys);
  }

  lemma ResolvedAtEnd(pool: Pool, minimum: Option<u64>, req: Requirement, resolved: Requirement)
    requires ResolvedUpTo(pool, minimum, req, Ascending(req.Keys), |Ascending(req.Keys)|, resolved)
    ensures resolved == ResolveRequirement(pool, req) && WithinFloor(pool, minimum, [req])
  {
    var keys := Ascending(req.Keys);
    forall c | c in req ensures resolved[c] == ResolveQuorum(pool, c, req[c]) && !BelowFloor(pool, minimum, req, c) {
      assert c in keys;
    }
  }

  method ResolveOne(req: Requirement, pool: Pool, minimum: Option<u64>) returns (r: Result<Requirement>)
    ensures r.Ok? ==> r.value == ResolveRequirement(pool, req) && WithinFloor(pool, minimum, [req])
    ensures r.Err? ==> r.problem.RestrictionViolation? && BelowFloor(pool, minimum, req, r.problem.violated)
  {
    hide *;
    var keys := Ascending(req.Keys);
    var resolved := req;
    ResolvedAtStart(pool, minimum, req);
    for k := 0 to |keys|
      invariant ResolvedUpTo(pool, minimum, req, keys, k, resolved)
    {
      var category := keys[k];
      UnresolvedAt(pool, minimum, req, keys, k, resolved);
      if resolved[category].Max? {
        var actual := Actual(pool, category);
        if minimum.Some? && actual < minimum.value {
          return Err(RestrictionViolation(category, actual, minimum.value));
        }
        ResolveNext(pool, minimum, req, keys, k, resolved);
        resolved := resolved[category := Count(actual)];
      } else {
        ResolveNext(pool, minimum, req, keys, k, resolved);
      }
    }
    ResolvedAtEnd(pool, minimum, req, resolved);
    return Ok(resolved);
  }

  method ResolveList(reqs: seq<Requirement>, pool: Pool, minimum: Option<u64>) returns (r: Result<seq<Requirement>>)
    ensures r.Ok? <==> WithinFloor(pool, minimum, reqs)
    ensures r.Ok? ==> r.value == ResolveAll(pool, reqs)
  {
    var out := [];
    for i := 0 to |reqs|
      invariant WithinFloor(pool, minimum, reqs[..i]) && out == ResolveAll(pool, reqs[..i])
    {
      var one := ResolveOne(reqs[i], pool, minimum);
      if one.Err? {
        assert BelowFloor(pool, minimum, reqs[i], one.problem.violated);
        return Err(one.problem);
      }
      assert reqs[..i + 1][..i] == reqs[..i];
      assert [reqs[i]][0] == reqs[i];
      out := out + [one.value];
    }
    assert reqs[..|reqs|] == reqs;
    return Ok(out);
  }

  /** `resolve_max`. */
  method ResolveMax(strategy: Strategy, pool: Pool, minimum: Option<u64>) returns (r: Result<Strategy>)
    ensures r.Ok? <==> WithinFloor(pool, minimum, strategy.allOf) && WithinFloor(pool, minimum, strategy.oneOf)
    ensures r.Ok? ==> r.value == ResolveStrategy(pool, strategy)
  {
    var allOf := ResolveList(strategy.allOf, pool, minimum);
    if allOf.Err? {
      return Err(allOf.problem);
    }
    var oneOf := ResolveList(strategy.oneOf, pool, minimum);
    if oneOf.Err? {
      return Err(oneOf.problem);
    }
    return Ok(Strategy(allOf.value, oneOf.value));
  }

  /** Resolving keeps the requirements, their categories and their counts in place, and puts the
      pool's count where a `max` stood. */
  lemma ResolvingMeans(pool: Pool, reqs: seq<Requirement>, i: nat, c: Category)
    requires i < |reqs|
    ensures |ResolveAll(pool, reqs)| == |reqs|
    ensures c in ResolveAll(pool, reqs)[i] <==> c in reqs[i]
    ensures c in reqs[i] && reqs[i][c].Count? ==> ResolveAll(pool, reqs)[i][c] == reqs[i][c]
    ensures c in reqs[i] && reqs[i][c].Max? ==> ResolveAll(pool, reqs)[i][c] == Count(Actual(pool, c))
  {
    hide Actual;
    ResolveAllAt(pool, reqs, i);
  }

  /** The restriction forbids exactly a `max` that comes to less than it. */
  lemma RestrictionMeans(pool: Pool, minimum: Option<u64>, reqs: seq<Requirement>)
    ensures WithinFloor(pool, minimum, reqs) <==>
            || minimum.None?
            || forall r: Requirement, c :: r in reqs && c in r && r[c].Max? ==> Actual(pool, c) >= minimum.value
  {
    hide Actual;
    if WithinFloor(pool, minimum, reqs) && minimum.Some? {
      forall r: Requirement, c | r in reqs && c in r && r[c].Max? ensures Actual(pool, c) >= minimum.value {
        var i :| 0 <= i < |reqs| && reqs[i] == r;
        assert !BelowFloor(pool, minimum, reqs[i], c);
      }
    }
    if minimum.None? ||
       forall r: Requirement, c :: r in reqs && c in r && r[c].Max? ==> Actual(pool, c) >= minimum.value {
      forall i, c | 0 <= i < |reqs| ensures !BelowFloor(pool, minimum, reqs[i], c) {
        assert reqs[i] in reqs;
      }
    }
  }

  predicate NoMax(strategy: Strategy) {
    (forall r :: r in strategy.allOf ==> Resolved(r)) && (forall r :: r in strategy.oneOf ==> Resolved(r))
  }

  lemma {:induction false} ResolveAllAt(pool: Pool, reqs: seq<Requirement>, i: nat)
    requires i < |reqs|
    ensures |ResolveAll(pool, reqs)| == |reqs| && ResolveAll(pool, reqs)[i] == ResolveRequirement(pool, reqs[i])
  {
    hide ResolveRequirement;
    ResolveAllLength(pool, reqs);
    if i < |reqs| - 1 { ResolveAllAt(pool, reqs[..|reqs| - 1], i); }
  }

  lemma {:induction false} ResolveAllLength(pool: Pool, reqs: seq<Requirement>)
    ensures |ResolveAll(pool, reqs)| == |reqs|
  {
    if reqs != [] { ResolveAllLength(pool, reqs[..|reqs| - 1]); }
  }

  /** Resolving leaves no `max` behind, and changes nothing that was not one. */
  lemma ResolvingLeavesNoMax(pool: Pool, strategy: Strategy)
    ensures NoMax(ResolveStrategy(pool, strategy))
    ensures NoMax(strategy) ==> ResolveStrategy(pool, strategy) == strategy
  {
    ResolvedListing(pool, strategy.allOf);
    ResolvedListing(pool, strategy.oneOf);
  }

  lemma ResolvedListing(pool: Pool, reqs: seq<Requirement>)
    ensures forall r :: r in ResolveAll(pool, reqs) ==> Resolved(r)
    ensures (forall r :: r in reqs ==> Resolved(r)) ==> ResolveAll(pool, reqs) == reqs
  {
    hide ResolveAll;
    ResolveAllLength(pool, reqs);
    var all := ResolveAll(pool, reqs);
    forall i | 0 <= i < |reqs|
      ensures Resolved(all[i]) && (Resolved(reqs[i]) ==> all[i] == reqs[i])
    {
      ResolveAllAt(pool, reqs, i);
    }
    if forall r :: r in reqs ==> Resolved(r) {
      assert forall i :: 0 <= i < |reqs| ==> reqs[i] in reqs;
    }
  }

  // ----- the check and the precomputation -----

  predicate Listed(strategy: Strategy) {
    forall r :: r in strategy.allOf + strategy.oneOf ==> ListedKeys(r)
  }

  predicate ListedKeys(req: Requirement) {
    forall c :: c in req ==> IsListed(c)
  }

  predicate IsListed(c: Category) {
    c in CATEGORIES || c == ANY
  }

  /** A strategy may name the three categories and `any`, and nothing else. */
  lemma ListedMeans(strategy: Strategy)
    ensures Listed(strategy) <==>
            forall r, c :: r in strategy.allOf + strategy.oneOf && c in r ==>
              c in {INTERNAL, DEDICATED_EXTERNAL, SHARED_EXTERNAL, ANY}
  {
  }

  /** The strategy in force for an endpoint of a chain. */
  function Raw(file: StrategyFile, chain: Name, endpoint: Name): Option<Strategy> {
    if chain in file.chains && endpoint in file.chains[chain] then Some(file.chains[chain][endpoint]) else file.default
  }

  /** One endpoint's pool meets its strategy, once resolved within the restriction. */
  ghost predicate EndpointMet(entries: seq<ProviderEntry>, raw: Strategy, minimum: Option<u64>) {
    var pool := SeededPool(entries);
    && WithinFloor(pool, minimum, raw.allOf) && WithinFloor(pool, minimum, raw.oneOf)
    && Satisfied(Listings(pool), ResolveStrategy(pool, raw))
  }

  ghost predicate AllListed(file: StrategyFile) {
    && (file.default.Some? ==> Listed(file.default.value))
    && forall chain, endpoint :: chain in file.chains && endpoint in file.chains[chain] ==>
       Listed(file.chains[chain][endpoint])
  }

  /** An endpoint meets the strategy in force for it. */
  ghost predicate Judged(chain: Name, e: Name, entries: seq<ProviderEntry>, file: StrategyFile, minimum: Option<u64>)
    requires file.default.Some?
  {
    EndpointMet(entries, Raw(file, chain, e).value, minimum)
  }

  /** The endpoints of a chain are judged by their own strategy, and by the default without one. */
  lemma ChainJudged(chain: Name, endpoints: Endpoints, file: StrategyFile, minimum: Option<u64>)
    requires file.default.Some?
    ensures (forall e :: e in endpoints ==> Judged(chain, e, endpoints[e], file, minimum)) <==>
            ChainMet(chain, endpoints, file, minimum)
  {
    hide EndpointMet;
  }

  ghost predicate ChainMet(chain: Name, endpoints: Endpoints, file: StrategyFile, minimum: Option<u64>)
    requires file.default.Some?
  {
    && (forall e :: e in endpoints && chain in file.chains && e in file.chains[chain] ==>
          EndpointMet(endpoints[e], file.chains[chain][e], minimum))
    && (forall e :: e in endpoints && !(chain in file.chains && e in file.chains[chain]) ==>
          EndpointMet(endpoints[e], file.default.value, minimum))
  }

  /** What the check promises of a pair of files: every endpoint meets its own strategy where the
      file overrides it, and the default strategy everywhere else. */
  ghost predicate Acceptable(providers: ProvidersFile, file: StrategyFile, minimum: Option<u64>) {
    && file.default.Some? && AllListed(file)
    && (forall chain, e :: chain in providers && e in providers[chain] ==>
          (chain in file.chains && e in file.chains[chain] ==>
             EndpointMet(providers[chain][e], file.chains[chain][e], minimum)))
    && (forall chain, e :: chain in providers && e in providers[chain] ==>
          (!(chain in file.chains && e in file.chains[chain]) ==>
             EndpointMet(providers[chain][e], file.default.value, minimum)))
  }

  /** The check of one endpoint. */
  method CheckEndpoint(chain: Name, endpoint: Name, entries: seq<ProviderEntry>, raw: Strategy, minimum: Option<u64>)
    returns (problems: seq<Problem>)
    ensures problems == [] <==> EndpointMet(entries, raw, minimum)
  {
    var counts := EntitiesPerCategory(entries);
    var resolved := ResolveMax(raw, counts, minimum);
    match resolved {
      case Err(problem) => return [problem];
      case Ok(strategy) =>
        var satisfiable := IsStrategySatisfiable(counts, strategy);
        return if satisfiable then [] else [NotSatisfiable(chain, endpoint)];
    }
  }

  method UnlistedKeys(req: Requirement) returns (problems: seq<Problem>)
    ensures problems == [] <==> ListedKeys(req)
  {
    hide IsListed;
    problems := [];
    var keys := Ascending(req.Keys);
    for k := 0 to |keys|
      invariant problems == [] <==> forall j :: 0 <= j < k ==> IsListed(keys[j])
    {
      if !IsListed(keys[k]) {
        problems := problems + [UnlistedCategory(keys[k])];
      }
    }
    assert forall c :: c in req <==> c in keys;
  }

  /** The names in one strategy that no category has. */
  method UnlistedNames(strategy: Strategy) returns (problems: seq<Problem>)
    ensures problems == [] <==> Listed(strategy)
  {
    hide ListedKeys;
    problems := [];
    var reqs := strategy.allOf + strategy.oneOf;
    for i := 0 to |reqs|
      invariant problems == [] <==> forall j :: 0 <= j < i ==> ListedKeys(reqs[j])
    {
      var more := UnlistedKeys(reqs[i]);
      problems := problems + more;
    }
  }

  method UnlistedOverrides(overrides: map<Name, Strategy>) returns (problems: seq<Problem>)
    ensures problems == [] <==> forall endpoint :: endpoint in overrides ==> Listed(overrides[endpoint])
  {
    problems := [];
    var endpoints := Ascending(overrides.Keys);
    for j := 0 to |endpoints|
      invariant problems == [] <==> forall i :: 0 <= i < j ==> Listed(overrides[endpoints[i]])
    {
      var more := UnlistedNames(overrides[endpoints[j]]);
      problems := problems + more;
    }
    assert forall endpoint :: endpoint in overrides <==> endpoint in endpoints;
  }

  method UnlistedInFile(file: StrategyFile) returns (problems: seq<Problem>)
    requires file.default.Some?
    ensures problems == [] <==> AllListed(file)
  {
    hide Listed;
    problems := UnlistedNames(file.default.value);
    var chains := Ascending(file.chains.Keys);
    ghost var clean := problems == [];
    for i := 0 to |chains|
      invariant problems == [] <==> clean && forall k, endpoint :: 0 <= k < i && endpoint in file.chains[chains[k]] ==>
        Listed(file.chains[chains[k]][endpoint])
    {
      var more := UnlistedOverrides(file.chains[chains[i]]);
      problems := problems + more;
    }
    assert forall chain :: chain in file.chains <==> chain in chains;
  }

  /** The first `j` of these endpoints meet the strategies in force for them. */
  ghost predicate JudgedUpTo(chain: Name, endpoints: Endpoints, file: StrategyFile, minimum: Option<u64>,
                             names: seq<Name>, j: nat)
    requires file.default.Some? && j <= |names|
  {
    forall i :: 0 <= i < j ==> names[i] in endpoints && Judged(chain, names[i], endpoints[names[i]], file, minimum)
  }

  lemma JudgedByName(chain: Name, e: Name, endpoints: Endpoints, file: StrategyFile, minimum: Option<u64>,
                     names: seq<Name>)
    requires file.default.Some? && e in names && JudgedUpTo(chain, endpoints, file, minimum, names, |names|)
    ensures e in endpoints && Judged(chain, e, endpoints[e], file, minimum)
  {
    hide Judged;
    var i :| 0 <= i < |names| && names[i] == e;
  }

  lemma JudgedNames(chain: Name, endpoints: Endpoints, file: StrategyFile, minimum: Option<u64>, names: seq<Name>)
    requires file.default.Some? && forall e :: e in names ==> e in endpoints
    requires forall e :: e in endpoints ==> Judged(chain, e, endpoints[e], file, minimum)
    ensures JudgedUpTo(chain, endpoints, file, minimum, names, |names|)
  {
    hide Judged;
    forall i | 0 <= i < |names| ensures names[i] in endpoints {
      assert names[i] in names;
    }
  }

  lemma JudgedAll(chain: Name, endpoints: Endpoints, file: StrategyFile, minimum: Option<u64>, names: seq<Name>)
    requires file.default.Some? && forall e :: e in names <==> e in endpoints
    ensures JudgedUpTo(chain, endpoints, file, minimum, names, |names|) <==> ChainMet(chain, endpoints, file, minimum)
  {
    ChainJudged(chain, endpoints, file, minimum);
    hide *;
    if JudgedUpTo(chain, endpoints, file, minimum, names, |names|) {
      forall e | e in endpoints ensures Judged(chain, e, endpoints[e], file, minimum) {
        JudgedByName(chain, e, endpoints, file, minimum, names);
      }
    } else if forall e :: e in endpoints ==> Judged(chain, e, endpoints[e], file, minimum) {
      JudgedNames(chain, endpoints, file, minimum, names);
    }
  }

  /** The check of one endpoint under the strategy in force for it. */
  method CheckInForce(chain: Name, endpoint: Name, entries: seq<ProviderEntry>, file: StrategyFile,
                      minimum: Option<u64>)
    returns (problems: seq<Problem>)
    requires file.default.Some?
    ensures problems == [] <==> Judged(chain, endpoint, entries, file, minimum)
  {
    hide EndpointMet;
    problems := CheckEndpoint(chain, endpoint, entries, Raw(file, chain, endpoint).value, minimum);
  }

  method CheckChain(chain: Name, endpoints: Endpoints, file: StrategyFile, minimum: Option<u64>)
    returns (problems: seq<Problem>)
    requires file.default.Some?
    ensures problems == [] <==> ChainMet(chain, endpoints, file, minimum)
  {
    hide Judged, Ascending, ChainMet;
    problems := [];
    var names := Ascending(endpoints.Keys);
    for j := 0 to |names|
      invariant problems == [] <==> JudgedUpTo(chain, endpoints, file, minimum, names, j)
    {
      assert names[j] in names;
      var more := CheckInForce(chain, names[j], endpoints[names[j]], file, minimum);
      problems := problems + more;
    }
    JudgedAll(chain, endpoints, file, minimum, names);
  }

  /** `check_strategy_config_with_restrictions`: no problem is reported exactly when the pair
      of files is acceptable. */
  method CheckStrategyConfig(providers: ProvidersFile, file: StrategyFile, minimum: Option<u64>)
    returns (problems: seq<Problem>)
    ensures problems == [] <==> Acceptable(providers, file, minimum)
    ensures problems == [] <==>
            && file.default.Some? && AllListed(file)
            && (forall chain, e :: chain in providers && e in providers[chain] ==>
                  (chain in file.chains && e in file.chains[chain] ==>
                     EndpointMet(providers[chain][e], file.chains[chain][e], minimum)))
            && (forall chain, e :: chain in providers && e in providers[chain] ==>
                  (!(chain in file.chains && e in file.chains[chain]) ==>
                     EndpointMet(providers[chain][e], file.default.value, minimum)))
  {
    hide EndpointMet, AllListed, Ascending;
    if file.default.None? {
      return [MissingDefault];
    }
    problems := UnlistedInFile(file);
    if problems != [] {
      return;
    }
    var chains := Ascending(providers.Keys);
    for i := 0 to |chains|
      invariant problems == [] <==> forall k :: 0 <= k < i ==> ChainMet(chains[k], providers[chains[k]], file, minimum)
    {
      var more := CheckChain(chains[i], providers[chains[i]], file, minimum);
      problems := problems + more;
    }
    assert forall chain :: chain in providers <==> chain in chains;
    ChainsMet(providers, file, minimum);
    hide ChainMet, Acceptable;
  }

  lemma ChainsMet(providers: ProvidersFile, file: StrategyFile, minimum: Option<u64>)
    requires file.default.Some? && AllListed(file)
    ensures (forall chain :: chain in providers ==> ChainMet(chain, providers[chain], file, minimum)) <==>
            Acceptable(providers, file, minimum)
  {
    hide EndpointMet, AllListed;
  }

  datatype ResolvedFile = ResolvedFile(default: Option<Strategy>, chains: map<Name, map<Name, Strategy>>)

  /** What the precomputation should hold for one chain. */
  ghost predicate ChainResolved(endpoints: Endpoints, chain: Name, file: StrategyFile, minimum: Option<u64>,
                                out: map<Name, Strategy>) {
    && (forall e :: e in out <==> e in endpoints && Raw(file, chain, e).Some?)
    && forall e :: e in out ==> out[e] == ResolveStrategy(SeededPool(endpoints[e]), Raw(file, chain, e).value)
  }

  ghost predicate EndpointFloored(entries: seq<ProviderEntry>, raw: Option<Strategy>, minimum: Option<u64>) {
    raw.Some? ==>
      && WithinFloor(SeededPool(entries), minimum, raw.value.allOf)
      && WithinFloor(SeededPool(entries), minimum, raw.value.oneOf)
  }

  ghost predicate Floored(endpoints: Endpoints, chain: Name, file: StrategyFile, minimum: Option<u64>) {
    forall e :: e in endpoints ==> EndpointFloored(endpoints[e], Raw(file, chain, e), minimum)
  }

  /** The endpoints of `names[..j]` resolved. */
  ghost predicate ChainSoFar(endpoints: Endpoints, chain: Name, file: StrategyFile, minimum: Option<u64>,
                             names: seq<Name>, j: nat, out: map<Name, Strategy>)
  {
    && j <= |names| && (forall i :: 0 <= i < |names| ==> names[i] in endpoints)
    && (forall e :: e in out ==>
          && e in endpoints && Raw(file, chain, e).Some?
          && out[e] == ResolveStrategy(SeededPool(endpoints[e]), Raw(file, chain, e).value))
    && (forall i :: 0 <= i < j ==>
          && (Raw(file, chain, names[i]).Some? ==> names[i] in out)
          && EndpointFloored(endpoints[names[i]], Raw(file, chain, names[i]), minimum))
  }

  lemma ChainNext(endpoints: Endpoints, chain: Name, file: StrategyFile, minimum: Option<u64>,
                  names: seq<Name>, j: nat, out: map<Name, Strategy>)
    requires j < |names| && ChainSoFar(endpoints, chain, file, minimum, names, j, out)
    requires EndpointFloored(endpoints[names[j]], Raw(file, chain, names[j]), minimum)
    ensures var raw := Raw(file, chain, names[j]);
            && (raw.None? ==> ChainSoFar(endpoints, chain, file, minimum, names, j + 1, out))
            && (raw.Some? ==> ChainSoFar(endpoints, chain, file, minimum, names, j + 1,
                                         out[names[j] := ResolveStrategy(SeededPool(endpoints[names[j]]), raw.value)]))
  {
    hide EndpointFloored, ResolveStrategy, SeededPool, Raw;
  }

  lemma ChainDone(endpoints: Endpoints, chain: Name, file: StrategyFile, minimum: Option<u64>, out: map<Name, Strategy>)
    requires var names := Ascending(endpoints.Keys);
             ChainSoFar(endpoints, chain, file, minimum, names, |names|, out)
    ensures ChainResolved(endpoints, chain, file, minimum, out) && Floored(endpoints, chain, file, minimum)
  {
    hide EndpointFloored, ResolveStrategy, SeededPool, Raw;
    var names := Ascending(endpoints.Keys);
    forall e | e in endpoints
      ensures Raw(file, chain, e).Some? ==> e in out
      ensures EndpointFloored(endpoints[e], Raw(file, chain, e), minimum)
    {
      assert e in names;
      var i :| 0 <= i < |names| && names[i] == e;
    }
  }

  lemma ChainStarts(endpoints: Endpoints, chain: Name, file: StrategyFile, minimum: Option<u64>)
    ensures ChainSoFar(endpoints, chain, file, minimum, Ascending(endpoints.Keys), 0, map[])
  {
    forall i | 0 <= i < |Ascending(endpoints.Keys)| ensures Ascending(endpoints.Keys)[i] in endpoints {
      assert Ascending(endpoints.Keys)[i] in Ascending(endpoints.Keys);
    }
    hide Ascending;
  }

  lemma NotFloored(endpoints: Endpoints, chain: Name, file: StrategyFile, minimum: Option<u64>, endpoint: Name)
    requires endpoint in endpoints && !EndpointFloored(endpoints[endpoint], Raw(file, chain, endpoint), minimum)
    ensures !Floored(endpoints, chain, file, minimum)
  {
    hide EndpointFloored, Raw;
  }

  method PrecomputeChain(chain: Name, endpoints: Endpoints, file: StrategyFile, minimum: Option<u64>)
    returns (r: Result<map<Name, Strategy>>)
    ensures r.Ok? <==> Floored(endpoints, chain, file, minimum)
    ensures r.Ok? ==> ChainResolved(endpoints, chain, file, minimum, r.value)
  {
    var out: map<Name, Strategy> := map[];
    var names := Ascending(endpoints.Keys);
    ChainStarts(endpoints, chain, file, minimum);
    hide WithinFloor, ChainResolved, ResolveStrategy, SeededPool, Raw, ChainSoFar, Ascending, Floored;
    for j := 0 to |names|
      invariant ChainSoFar(endpoints, chain, file, minimum, names, j, out)
    {
      var endpoint := names[j];
      assert endpoint in names;
      var raw := Raw(file, chain, endpoint);
      if raw.None? {
        ChainNext(endpoints, chain, file, minimum, names, j, out);
        continue;
      }
      var pool := EntitiesPerCategory(endpoints[endpoint]);
      var resolved := ResolveMax(raw.value, pool, minimum);
      if resolved.Err? {
        NotFloored(endpoints, chain, file, minimum, endpoint);
        return Err(resolved.problem);
      }
      ChainNext(endpoints, chain, file, minimum, names, j, out);
      out := out[endpoint := resolved.value];
    }
    ChainDone(endpoints, chain, file, minimum, out);
    return Ok(out);
  }

  /** The chains of `names[..i]` resolved. */
  ghost predicate ChainsSoFar(providers: ProvidersFile, file: StrategyFile, minimum: Option<u64>, names: seq<Name>,
                              i: nat,
                              chains: map<Name, map<Name, Strategy>>)
  {
    && i <= |names| && (forall k :: 0 <= k < |names| ==> names[k] in providers)
    && (forall k :: 0 <= k < i ==> names[k] in chains)
    && forall chain :: chain in chains ==>
         && chain in providers && Floored(providers[chain], chain, file, minimum)
         && ChainResolved(providers[chain], chain, file, minimum, chains[chain])
  }

  lemma ChainsNext(providers: ProvidersFile, file: StrategyFile, minimum: Option<u64>, names: seq<Name>, i: nat,
                   chains: map<Name, map<Name, Strategy>>, out: map<Name, Strategy>)
    requires i < |names| && ChainsSoFar(providers, file, minimum, names, i, chains)
    requires Floored(providers[names[i]], names[i], file, minimum)
    requires ChainResolved(providers[names[i]], names[i], file, minimum, out)
    ensures ChainsSoFar(providers, file, minimum, names, i + 1, chains[names[i] := out])
  {
    hide Floored, ChainResolved;
  }

  lemma ChainsStart(providers: ProvidersFile, file: StrategyFile, minimum: Option<u64>)
    ensures ChainsSoFar(providers, file, minimum, Ascending(providers.Keys), 0, map[])
  {
    hide Floored, ChainResolved;
  }

  lemma ChainsDone(providers: ProvidersFile, file: StrategyFile, minimum: Option<u64>,
                   chains: map<Name, map<Name, Strategy>>)
    requires var names := Ascending(providers.Keys);
             ChainsSoFar(providers, file, minimum, names, |names|, chains)
    ensures chains.Keys == providers.Keys
    ensures forall chain :: chain in providers ==>
              Floored(providers[chain], chain, file, minimum)
                && ChainResolved(providers[chain], chain, file, minimum, chains[chain])
  {
    hide Floored, ChainResolved;
    var names := Ascending(providers.Keys);
    forall chain | chain in providers ensures chain in chains {
      assert chain in names;
      var k :| 0 <= k < |names| && names[k] == chain;
    }
  }

  method PrecomputeDefault(file: StrategyFile) returns (r: Result<Option<Strategy>>)
    ensures r == Ok(match file.default case None => None case Some(s) => Some(ResolveStrategy(map[], s)))
  {
    if file.default.None? {
      return Ok(None);
    }
    var resolved := ResolveMax(file.default.value, map[], None);
    assert resolved.Ok?;
    return Ok(Some(resolved.value));
  }

  /** What one chain's precomputation holds, endpoint by endpoint: the resolved override where there
      is one, the resolved default otherwise, and nothing without either. */
  lemma ChainServes(chain: Name, e: Name, endpoints: Endpoints, file: StrategyFile, minimum: Option<u64>,
                    out: map<Name, Strategy>)
    requires ChainResolved(endpoints, chain, file, minimum, out) && e in endpoints
    ensures chain in file.chains && e in file.chains[chain] ==>
              e in out && out[e] == ResolveStrategy(SeededPool(endpoints[e]), file.chains[chain][e])
    ensures !(chain in file.chains && e in file.chains[chain]) && file.default.Some? ==>
              e in out && out[e] == ResolveStrategy(SeededPool(endpoints[e]), file.default.value)
    ensures !(chain in file.chains && e in file.chains[chain]) && file.default.None? ==> e !in out
  {
    hide ResolveStrategy, SeededPool;
  }

  /** The restriction holds of a chain when it holds of every strategy in force. */
  lemma ChainFloored(chain: Name, endpoints: Endpoints, file: StrategyFile, minimum: Option<u64>)
    ensures Floored(endpoints, chain, file, minimum) <==>
            && (forall e :: e in endpoints && chain in file.chains && e in file.chains[chain] ==>
                  EndpointFloored(endpoints[e], Some(file.chains[chain][e]), minimum))
            && (forall e :: e in endpoints && !(chain in file.chains && e in file.chains[chain]) ==>
                  EndpointFloored(endpoints[e], file.default, minimum))
  {
    hide EndpointFloored;
  }

  /** `precompute_resolved_strategy`. */
  method PrecomputeResolvedStrategy(providers: ProvidersFile, file: StrategyFile, minimum: Option<u64>)
    returns (r: Result<ResolvedFile>)
    ensures r.Ok? <==> forall chain :: chain in providers ==> Floored(providers[chain], chain, file, minimum)
    ensures r.Ok? ==>
              && r.value.chains.Keys == providers.Keys
              && (forall chain :: chain in providers ==>
                  ChainResolved(providers[chain], chain, file, minimum, r.value.chains[chain]))
              && r.value.default ==
                 (match file.default case None => None case Some(s) => Some(ResolveStrategy(map[], s)))
    ensures r.Ok? ==>
              forall chain, e :: chain in providers && e in providers[chain] ==>
                var pool, out := SeededPool(providers[chain][e]), r.value.chains[chain];
                && (chain in file.chains && e in file.chains[chain] ==>
                      e in out && out[e] == ResolveStrategy(pool, file.chains[chain][e]))
                && (!(chain in file.chains && e in file.chains[chain]) && file.default.Some? ==>
                      e in out && out[e] == ResolveStrategy(pool, file.default.value))
                && (!(chain in file.chains && e in file.chains[chain]) && file.default.None? ==> e !in out)
  {
    hide *;
    var default := PrecomputeDefault(file);
    var chains: map<Name, map<Name, Strategy>> := map[];
    var names := Ascending(providers.Keys);
    ChainsStart(providers, file, minimum);
    for i := 0 to |names|
      invariant ChainsSoFar(providers, file, minimum, names, i, chains)
    {
      var out := PrecomputeChain(names[i], providers[names[i]], file, minimum);
      if out.Err? {
        return Err(out.problem);
      }
      ChainsNext(providers, file, minimum, names, i, chains, out.value);
      chains := chains[names[i] := out.value];
    }
    ChainsDone(providers, file, minimum, chains);
    forall chain, e | chain in providers && e in providers[chain]
      ensures chain in file.chains && e in file.chains[chain] ==>
                && e in chains[chain]
                && chains[chain][e] == ResolveStrategy(SeededPool(providers[chain][e]), file.chains[chain][e])
      ensures !(chain in file.chains && e in file.chains[chain]) && file.default.Some? ==>
                && e in chains[chain]
                && chains[chain][e] == ResolveStrategy(SeededPool(providers[chain][e]), file.default.value)
      ensures !(chain in file.chains && e in file.chains[chain]) && file.default.None? ==> e !in chains[chain]
    {
      ChainServes(chain, e, providers[chain], file, minimum, chains[chain]);
    }
    return Ok(ResolvedFile(default.value, chains));
  }

  // ----- acceptance is kept by the runtime -----

  function VotersOf(entries: seq<ProviderEntry>): seq<Voter> {
    seq(|entries|, i requires 0 <= i < |entries| => Voter(entries[i].category, entries[i].entity))
  }

  /** `validate_provider_entry` as far as the category goes. */
  predicate ValidEntries(entries: seq<ProviderEntry>) {
    forall p :: p in entries ==> p.category in CATEGORIES
  }

  /** The voters of valid entries vote with what the check counted, pre-seeded or not. */
  lemma VotersOffer(entries: seq<ProviderEntry>)
    requires ValidEntries(entries)
    ensures Voiced(VotersOf(entries)) == Offered(entries) == Listings(SeededPool(entries))
  {
    var voters := VotersOf(entries);
    SeededLists(entries);
    forall l | l in Offered(entries) ensures l in Voiced(voters) {
      var i :| 0 <= i < |entries| && entries[i].category in CATEGORIES && l == (entries[i].category, entries[i].entity);
      assert voters[i] in voters;
    }
    forall l | l in Voiced(voters) ensures l in Offered(entries) {
      var i :| 0 <= i < |voters| && l == (voters[i].category, voters[i].entity);
      assert entries[i] in entries;
    }
  }

  /** What a resolved file must provide for every endpoint of every chain: a strategy with
      no `max` that the endpoint's own voters satisfy. */
  ghost predicate Serves(providers: ProvidersFile, resolved: ResolvedFile) {
    forall chain, e :: chain in providers && e in providers[chain] ==>
      && chain in resolved.chains && e in resolved.chains[chain]
      && NoMax(resolved.chains[chain][e])
      && Satisfied(Voiced(VotersOf(providers[chain][e])), resolved.chains[chain][e])
  }

  /** Accepting a pair of files is enough: the precomputation succeeds and serves them. */
  method ResolveAccepted(providers: ProvidersFile, file: StrategyFile, minimum: Option<u64>)
    returns (r: Option<ResolvedFile>)
    requires forall chain, e :: chain in providers && e in providers[chain] ==> ValidEntries(providers[chain][e])
    ensures r.Some? <==> Acceptable(providers, file, minimum)
    ensures r.Some? ==> Serves(providers, r.value) && file.default.Some?
    ensures r.Some? ==>
              forall chain, e :: chain in providers && e in providers[chain] ==>
                r.value.chains[chain][e] ==
                ResolveStrategy(SeededPool(providers[chain][e]),
                                if chain in file.chains && e in file.chains[chain] then file.chains[chain][e]
                                else file.default.value)
  {
    hide Satisfied, WithinFloor, NoMax, ResolveStrategy, AllListed;
    var problems := CheckStrategyConfig(providers, file, minimum);
    if problems != [] {
      return None;
    }
    var resolved := PrecomputeResolvedStrategy(providers, file, minimum);
    forall chain, e | chain in providers && e in providers[chain]
      ensures resolved.Ok? ==> NoMax(resolved.value.chains[chain][e])
      ensures resolved.Ok? ==> Satisfied(Voiced(VotersOf(providers[chain][e])), resolved.value.chains[chain][e])
    {
      if resolved.Ok? {
        VotersOffer(providers[chain][e]);
        assert ChainResolved(providers[chain], chain, file, minimum, resolved.value.chains[chain]);
        assert EndpointMet(providers[chain][e], Raw(file, chain, e).value, minimum);
        ResolvingLeavesNoMax(SeededPool(providers[chain][e]), Raw(file, chain, e).value);
      }
    }
    assert resolved.Ok?;
    return Some(resolved.value);
  }
}
