# Pillar: a verified model of its quorum, audit, connection and decoding logic

The model covers five parts of the repository.

- **Quorum strategies** (`TextOrder`, `Quorum`, `Matching`, `Selection`, `StableSort`, `Dealing`,
  `Dispatch`, `StrategyKey`, `StrategyConfig`). A pool of providers, each an entity under a
  category, is decided against a strategy by bipartite matching. `Quorum` says what meeting a
  requirement set means; `Matching` proves that the augmenting search with its prefix shortcut
  decides it; `Selection` that dropping providers from the back is a global optimum; `Dispatch`
  that the first wave dialled is the smallest possible; `StrategyConfig` that an accepted pair of
  files is what the runtime then serves; `StrategyKey` that the canonical key determines the
  strategy.
- **Body decoders** (`Base64`, `Utf16`, `Utf7`, `ByteOrder`, `Detection`). UTF-7 of RFC 2152 and of
  section 5.1.3 of RFC 3501, with the repository's own encoders, exactly when the round trip holds,
  and byte-order detection, exactly when it recovers a text.
- **The signing audit** (`Audit`, `AuditRuns`). The classes the code updates in place, and every
  interleaving of concurrent effects, store faults, recording, cancellation and the drop guard.
- **Connections and drain** (`Connections`, `ConnectionRuns`, `AcceptRuns`). The flags and the
  registry as classes; one connection against the evictor, store by store; the accept loop, its
  withdrawal window and its drain.
- **Signature collection** (`Client`).

`Wrappers` holds what they share.

Conventions. A name is wrapped in `Name`; `BTreeMap` and `BTreeSet` iterate in `Ascending` order.
A pool counts through its set of listings, pairs of category and entity. Library calls that are
not the point appear as functions: sorting by key, base64 of Node, UTF-16 of a JavaScript string.
Requests, store calls, frames and clock ticks are inputs or steps chosen by the environment, so
every statement holds for all of them. A run is given by a schedule of attempted steps, in which
one that is not enabled does nothing; a statement about every schedule is about every run.

Assumptions. The store gives each attempt an id of its own. A flush that reports ready has drained
the output buffer; a response head is buffered before the next flush; nothing but its end is taken
from a body that has said it is complete; a graceful shutdown finishes a started request. One poll
of a `select!` or of a time-out sees one reading of the clock. Targets are 64-bit, so `usize` and
`u64` agree.

Where code and comments differ. The comment on `connection_permit` says that `stop` wins ties, but
a free permit is tried before `stop` is looked at; the model follows the code,
`AcceptRuns.StopLosesATie` gives a run, and `TieGoesToStop`, `SpawnsPastEnd` and
`AcceptsStopInTime` say exactly what is left of the promise. That a connection is live at the grace
deadline does not by itself close the budgets (`AcceptRuns.LateCanStayOpen`); the poll of the drain
decides (`ClosedIffFoundLate`). The comment on `AttemptGuard` speaks of recording an unknown
outcome; the guard hands the attempts over and the recording is best effort, which is what the
model says. U+FEFF at the front of a shifted run is dropped by the decoder (`Utf7.BomIsLost`);
`Utf7.TextRoundTrip` states the round trip with exactly that condition.

## Model

| member | source | states |
|---|---|---|
| `TextOrder.TextLessMeans` | crates/pillar-config/src/provider_validation.rs:207-223 | texts compare by the first character in which they differ, and a proper prefix comes first |
| `Quorum.FillableIffInjects` | crates/pillar-config/src/provider_validation.rs:273-300 | a map of holders that gives each category exactly its slots exists iff every slot can be given a different listed entity |
| `Quorum.SlotsMatchDemand` | crates/pillar-config/src/provider_validation.rs:250-269 | the expansion into slots holds every category exactly as often as the requirements ask, independently of any order |
| `Quorum.AnyQuorumSaturates` | crates/pillar-config/src/provider_validation.rs:249-259 | the `any` total is the true sum, cut off at the `usize` bound |
| `Quorum.MeetsNeeds` | crates/pillar-config/src/provider_validation.rs:261-270 | a pool that meets a requirement set has at least max(slots, any) distinct entities |
| `Quorum.SatisfiedMonotone` | crates/pillar-config/src/provider_validation.rs:225-236 | more listings never make a satisfied strategy unsatisfied |
| `Matching.Augment` | crates/pillar-config/src/provider_validation.rs:302-336 | terminates; on success exactly one new entity is held, `start` holds one more, every other category as many as before, every holder lists what it holds, and no assignment that gives `start` one more and nobody less moves fewer entities; on failure nothing moved and the searched categories list only what they already hold |
| `Matching.LevelMoves` | crates/pillar-config/src/provider_validation.rs:302-335 | giving `start` one more moves an entity to a category at every level the breadth-first search went through |
| `Matching.ShortestIsFewest` | crates/pillar-config/src/provider_validation.rs:302-335 | so a path that moves one entity a level moves the fewest any such assignment can |
| `Matching.FlipPath` | crates/pillar-config/src/provider_validation.rs:317-326 | handing the found entity over and passing entities back along the search tree keeps every count but that of `start` |
| `Matching.StuckBlocks` | crates/pillar-config/src/provider_validation.rs:311-335 | a stuck search is a Hall violation: nothing that leaves its categories as much gives `start` one more |
| `Matching.StuckRefutes` | crates/pillar-config/src/provider_validation.rs:295-297 | when the search for one slot is stuck, no assignment of all the slots exists |
| `Matching.SkipOwned` | crates/pillar-config/src/provider_validation.rs:285-292 | the prefix skipped is held throughout and the entity after it is free |
| `Matching.AugmentKeeps` | crates/pillar-config/src/provider_validation.rs:285-286 | an entity once held stays held, so a remembered prefix stays valid |
| `Matching.AssignEntities` | crates/pillar-config/src/provider_validation.rs:273-300 | with the prefix shortcut, answers true iff an exact assignment of the slots exists, for every slot sequence |
| `Matching.AddRequirement` | crates/pillar-config/src/provider_validation.rs:250-269 | adds one requirement's slots and `any` count, or refuses, which it does iff a `max` is left or slots are added past the number of entities |
| `Matching.OversizedRefutes` | crates/pillar-config/src/provider_validation.rs:261-265 | the early refusal of an oversized count changes no answer |
| `Matching.CheckRequirementSet` | crates/pillar-config/src/provider_validation.rs:238-271 | true iff every count is resolved, the pool has enough distinct entities for `any`, and the slots can be assigned |
| `Matching.IsStrategySatisfiable` | crates/pillar-config/src/provider_validation.rs:225-236 | true iff `allOf` with some alternative (or with none, when there is no `oneOf`) is met |
| `Selection.NeedSuffices` | crates/pillar-config/src/provider_validation.rs:551-592 | inside every choice of providers that meets a requirement set there is one of exactly max(slots, any) that meets it |
| `Selection.NeedNecessary` | crates/pillar-config/src/provider_validation.rs:551-592 | no choice of fewer providers meets it |
| `Selection.IrredundantSize` | crates/pillar-config/src/provider_validation.rs:551-592 | every satisfying choice from which nothing can be dropped has exactly the size one of the alternatives needs |
| `Selection.IrredundantIsMinimum` | crates/pillar-config/src/provider_validation.rs:551-592 | with one alternative, such a choice is a minimum over all choices of providers |
| `Selection.KeptIsIrredundant` | crates/pillar-config/src/provider_validation.rs:570-591 | what dropping from the back keeps satisfies the strategy and nothing more can be dropped |
| `Selection.KeptIsEarliest` | crates/pillar-config/src/provider_validation.rs:570-591 | against any other satisfying choice, the last provider on which the two differ is used by the other |
| `Selection.EarliestIsKept` | crates/pillar-config/src/provider_validation.rs:570-591 | and no other choice has that property: it determines what is kept |
| `Selection.TallyAll` | crates/pillar-config/src/provider_validation.rs:556-566 | the counts and the pool match the providers listed |
| `Selection.TryDrop` | crates/pillar-config/src/provider_validation.rs:571-590 | one step of the drop, with its undo, keeps the counts and the pool exact |
| `Selection.MinimalSatisfyingSelection` | crates/pillar-config/src/provider_validation.rs:551-592 | `None` iff the candidate cannot be met; otherwise marks exactly what the greedy drop keeps, which is irredundant |
| `StableSort.SortIsStable` | crates/pillar-config/src/provider_validation.rs:452-486 | sorting by key permutes, orders, and keeps the input order of ties |
| `Dealing.CategoriesInOrder` | crates/pillar-config/src/provider_validation.rs:441-470 | of two categories in the order, the first is named by an `allOf` requirement (or one asks `any`) if the second is; within one class some provider of the first ranks at or below every provider of the second; and where the best ranks tie, the first is listed first |
| `Dealing.EntitiesInOrder` | crates/pillar-config/src/provider_validation.rs:481-486 | of two entities in the order, the first provider of the one ranks below the first provider of the other, or ranks alike and stands before it |
| `Dealing.DealInTurns` | crates/pillar-config/src/provider_validation.rs:487-501 | the round robin terminates; every entity's r-th provider precedes every (r+1)-th, in entity order within a turn, and each entity keeps its own order |
| `Dealing.DealCategory` | crates/pillar-config/src/provider_validation.rs:472-501 | the same for one category, from bucketing on |
| `Dealing.DealCategories` | crates/pillar-config/src/provider_validation.rs:441-502 | the whole order before any selection: one dealt block for each known category in use, in category order |
| `Dealing.TurnsUnique` | crates/pillar-config/src/provider_validation.rs:487-501 | taking turns in a given entity order leaves exactly one way of dealing the same providers |
| `Dealing.DealingOrderUnique` | crates/pillar-config/src/provider_validation.rs:441-502 | so what is promised of the order before any selection determines it |
| `Dealing.DealingPermutes` | crates/pillar-config/src/provider_validation.rs:447-502 | that order is a permutation of the providers with a known category |
| `Dispatch.SelectedFirstPermutes` | crates/pillar-config/src/provider_validation.rs:594-604 | moving a selection to the front loses and repeats nobody |
| `Dispatch.SelectedFirstPlaces` | crates/pillar-config/src/provider_validation.rs:594-604 | every provider goes to its place: a selected one after the selected ones before it, any other after all of those and the others before it |
| `Dispatch.PlacesInOrder` | crates/pillar-config/src/provider_validation.rs:594-604 | the places are different, keep the order of the selected and of the others, and put the selected first: a stable partition |
| `Dispatch.FrontVoices` | crates/pillar-config/src/provider_validation.rs:594-604 | the first so many providers offer exactly the listings of the selection |
| `Dispatch.Tally` | crates/pillar-config/src/provider_validation.rs:516-523 | size and saturating rank sum of a selection |
| `Dispatch.SatAddI64Means` | crates/pillar-config/src/provider_validation.rs:520-522 | a saturating sum lies between the true sum and every number that fits |
| `Dispatch.RankSumIsTotal` | crates/pillar-config/src/provider_validation.rs:516-523 | while every partial sum fits 64 bits the saturating rank sum is the plain total of the selected ranks |
| `Dispatch.RanksAreSummed` | crates/pillar-config/src/provider_validation.rs:516-523 | and with 32-bit ranks it always is, for fewer than 2^32 providers |
| `Dispatch.CountIsNeed` | crates/pillar-config/src/provider_validation.rs:513-516 | an alternative's greedy selection has exactly max(slots, any) providers |
| `Dispatch.BestSelection` | crates/pillar-config/src/provider_validation.rs:507-530 | picks the alternative with the fewest providers, then the lowest rank sum, then the first; none only if none can be met |
| `Dispatch.BestIsFewest` | crates/pillar-config/src/provider_validation.rs:507-530 | its size is the least need among the alternatives the providers can meet |
| `Dispatch.OrderProvidersForQuorum` | crates/pillar-config/src/provider_validation.rs:437-535 | a permutation of the known providers: dealt in turns, with the best alternative's selection in front when there is a `oneOf` |
| `Dispatch.PrioritizeMinimalQuorum` | crates/pillar-config/src/provider_validation.rs:537-549 | puts a minimal quorum of an `allOf`-only strategy in front and changes nothing else |
| `Dispatch.MinProvidersForStrategy` | crates/pillar-config/src/provider_validation.rs:606-621 | the least non-empty satisfying prefix, or everything when there is none |
| `Dispatch.PromotedStartsFewest` | crates/pillar-config/src/provider_validation.rs:503-534 | with a satisfiable `oneOf` the order starts with a satisfying set of the fewest providers |
| `Dispatch.PrioritizedStartsFewest` | crates/pillar-config/src/provider_validation.rs:538-549 | so does the prioritized order of a satisfiable `allOf`-only strategy |
| `Dispatch.WaveIsFewest` | crates/pillar-config/src/provider_validation.rs:606-621 | on such an order the least satisfying prefix is the least need of the alternatives that can be met, floored at one |
| `Dispatch.RanksOnlyFewest` | crates/pillar-runtime/src/provider_health/quorum.rs:640-647 | a strategy that asks only for at most one entity of any kind is served as well by rank order |
| `Dispatch.RanksOnlyMeans` | crates/pillar-runtime/src/provider_health/quorum.rs:640-647 | rank order is used iff there are no alternatives and the requirements hold nothing but counts of `any`, all of them zero apart from at most a single one |
| `Dispatch.PlanDispatch` | crates/pillar-runtime/src/provider_health/quorum.rs:596-613 | a strategy for which ranks suffice leaves the providers in rank order; any other is dealt and promoted, with the greedy quorum of a satisfiable `allOf`-only strategy in front; the first wave is the least non-empty satisfying prefix of that order, or all of it, and at least one; and whenever the providers ordered can satisfy the strategy it does, and no choice of fewer does |
| `Dispatch.KnownAll` | crates/pillar-config/src/provider_validation.rs:85-90 | with the categories of validated entries nobody is left out of the order |
| `StrategyKey.QuorumRead` | crates/pillar-config/src/provider_validation.rs:410-413 | a printed count or `max` can be read back, and where it ends |
| `StrategyKey.EntriesRead` | crates/pillar-config/src/provider_validation.rs:406-416 | so can the entries of a requirement |
| `StrategyKey.ListRead` | crates/pillar-config/src/provider_validation.rs:400-421 | so can a list of requirements, empty ones and list boundaries included |
| `StrategyKey.KeyDetermines` | crates/pillar-config/src/provider_validation.rs:392-427 | strategies whose names need no escaping and that print alike are equal |
| `StrategyKey.KeyInjective` | crates/pillar-config/src/provider_validation.rs:392-427 | over the four known names the key is equal iff the strategies are |
| `StrategyKey.DecimalMeans` | crates/pillar-config/src/provider_validation.rs:410-413 | a count is printed as the one numeral of digits, without leading zeros, that has its value |
| `StrategyKey.TwoEntries` | crates/pillar-config/src/provider_validation.rs:404-417 | a requirement is printed with its categories in text order, whatever order they were given in |
| `StrategyKey.EntryTexts` | crates/pillar-config/src/provider_validation.rs:406-415 | an entry is the quoted category with the numeral of its count, or with `max` as a quoted word |
| `StrategyKey.SampleKey` | crates/pillar-config/src/provider_validation.rs:392-427 | the whole key of one strategy with a count, a `max`, an empty requirement and an alternative |
| `StrategyConfig.EntitiesPerCategory` | crates/pillar-config/src/provider_validation.rs:212-223 | every known category with exactly the distinct entities its entries name |
| `StrategyConfig.MaxCounts` | crates/pillar-config/src/provider_validation.rs:349-367 | `max` comes to the number of distinct entities among the entries of its category, and under `any` of all known categories |
| `StrategyConfig.VoterEntities` | crates/pillar-config/src/provider_validation.rs:674-685 | exactly the listings of the voters, with no empty category |
| `StrategyConfig.ResolveOne` | crates/pillar-config/src/provider_validation.rs:349-367 | resolves one requirement, or refuses a `max` below the restriction |
| `StrategyConfig.ResolveMax` | crates/pillar-config/src/provider_validation.rs:338-370 | succeeds iff no `max` falls below the restriction, and then replaces each by the pool's count |
| `StrategyConfig.ResolvingMeans` | crates/pillar-config/src/provider_validation.rs:338-370 | resolving keeps every requirement, category and count in place and puts the pool's count where a `max` stood |
| `StrategyConfig.RestrictionMeans` | crates/pillar-config/src/provider_validation.rs:349-367 | the restriction forbids exactly a `max` that comes to less |
| `StrategyConfig.ResolvingLeavesNoMax` | crates/pillar-config/src/provider_validation.rs:338-370 | no `max` is left, and a strategy without one is unchanged |
| `StrategyConfig.CheckEndpoint` | crates/pillar-config/src/provider_validation.rs:165-192 | reports a problem iff the endpoint's pool does not meet its resolved strategy |
| `StrategyConfig.UnlistedInFile` | crates/pillar-config/src/provider_validation.rs:142-161 | reports a problem iff some strategy names an unlisted category |
| `StrategyConfig.ListedMeans` | crates/pillar-config/src/provider_validation.rs:142-161 | listed are the three categories and `any`, and nothing else |
| `StrategyConfig.CheckStrategyConfig` | crates/pillar-config/src/provider_validation.rs:131-195 | no problem is reported iff there is a default, every strategy names listed categories only, every endpoint with an override meets that override, and every other endpoint meets the default |
| `StrategyConfig.PrecomputeChain` | crates/pillar-config/src/provider_validation.rs:641-657 | resolves every endpoint of a chain, or fails iff one falls below the restriction |
| `StrategyConfig.ChainServes` | crates/pillar-config/src/provider_validation.rs:641-657 | an endpoint is served its own override, resolved over its own entries, where there is one, otherwise the default, and nothing without either |
| `StrategyConfig.ChainFloored` | crates/pillar-config/src/provider_validation.rs:641-657 | and it fails only for a `max` of the override, or of the default where there is no override |
| `StrategyConfig.PrecomputeResolvedStrategy` | crates/pillar-config/src/provider_validation.rs:629-660 | for every chain and endpoint, the override resolved over the endpoint's pool where there is one and the default where there is none; the default itself over an empty pool |
| `StrategyConfig.VotersOffer` | crates/pillar-config/src/provider_validation.rs:674-685 | voters of valid entries offer what the check counted, empty categories or not |
| `StrategyConfig.ResolveAccepted` | crates/pillar-config/src/provider_validation.rs:925-945 | every accepted pair of files with valid entries is resolved, without `max`, to strategies its own voters satisfy, each endpoint to its override or to the default |
| `Base64.DecodeLenient` | crates/pillar-api/src/express.rs:473-500 | decodes group by group; the result is the specification function |
| `Base64.LenientLength` | crates/pillar-api/src/express.rs:470-472 | n characters give floor(3n/4) bytes |
| `Base64.LenientDistributes` | crates/pillar-api/src/express.rs:486-498 | whole groups of four decode on their own |
| `Base64.AlphabetInOrder` | crates/pillar-api/src/express.rs:473-485 | the alphabet is capitals, small letters and digits in their order, `+` and `/` (section 4 of RFC 4648) |
| `Base64.InAlphabetMeans` | crates/pillar-api/src/express.rs:429-431 | a run goes on over exactly the 64 symbols, and over `,` in the IMAP variant, where it stands for `/`; each character is worth its place in the alphabet |
| `Base64.QuadMeans` | crates/pillar-api/src/express.rs:486-498 | a whole group is one number, four digits to the base 64 and three bytes to the base 256 |
| `Base64.ShortQuadMeans` | crates/pillar-api/src/express.rs:470-500 | a short last group gives the front of what it would give when filled up with zeros |
| `Base64.RunTextDecodes` | scripts/gasolina-parity/emit-http-framework-golden.ts:114-125 | decoding inverts unpadded base64 (section 4 of RFC 4648), with `,` for `/` in the IMAP variant, and a run is written in the alphabet alone |
| `Utf16.UnitsOfBytes` | crates/pillar-api/src/express.rs:375-390 | units survive their bytes in either order |
| `Utf16.JoinMeans` | crates/pillar-api/src/express.rs:380-388 | a unit is 256 times its high byte and its low byte |
| `Utf16.SwapToBigEndian` | scripts/gasolina-parity/emit-http-framework-golden.ts:105-113 | swapping the little-endian bytes gives the big-endian ones |
| `Utf16.PairMeans` | crates/pillar-api/src/express.rs:392-397 | the surrogates of a supplementary character as numbers (section 2.1 of RFC 2781) |
| `Utf16.DecodeEncode` | crates/pillar-api/src/express.rs:392-397 | text survives its UTF-16 units |
| `Utf16.DecodeKeepsLength` | crates/pillar-api/src/express.rs:392-397 | a lone surrogate is replaced one for one: decoding any units keeps their number |
| `Utf7.ScanRun` | crates/pillar-api/src/express.rs:444-447 | the run scanned is the maximal run of base64 characters |
| `Utf7.DecodeShifted` | crates/pillar-api/src/express.rs:448-456 | what stands after a shift byte, the split of an unterminated run included |
| `Utf7.DecodeBody` | crates/pillar-api/src/express.rs:428-468 | the loop decodes as the specification function does |
| `Utf7.RunMeans` | crates/pillar-api/src/express.rs:445-462 | what a shift byte with any run of base64 decodes to, by what ends the run: the end of the body, `-`, `-` at once, or another byte, which is then decoded for itself |
| `Utf7.DirectMeans` | crates/pillar-api/src/express.rs:439-444 | outside the runs an ASCII byte is itself and any other byte is U+FFFD |
| `Utf7.UnterminatedRun` | crates/pillar-api/src/express.rs:450-456 | an encoded run that the body ends without closing decodes in two parts, each less its mark: it equals the closed run iff there are no whole groups of three units or the rest does not open with U+FEFF |
| `Utf7.RunClosedByAnother` | crates/pillar-api/src/express.rs:456-462 | an encoded run closed by a byte that is neither base64 nor `-` decodes to itself less a leading mark, and the byte is decoded with the rest |
| `Utf7.SampleRun` | crates/pillar-api/src/express.rs:422-468 | U+00E9 as the characters `AOk`, ended by the body and ended by `!`, in both variants |
| `Utf7.ChunkDecodes` | crates/pillar-api/src/express.rs:432-462 | an encoded chunk decodes to itself less a leading U+FEFF, whatever follows it |
| `Utf7.DecodeEncoded` | crates/pillar-api/src/express.rs:422-468 | decoding an encoded text gives it back less the U+FEFF that opens a run, for every mix of direct and shifted runs |
| `Utf7.UnitsRoundTrip` | crates/pillar-api/src/express.rs:422-468 | unit sequences come back iff no encoded run begins with U+FEFF |
| `Utf7.TextRoundTrip` | scripts/gasolina-parity/emit-http-framework-golden.ts:114-125 | texts come back iff no encoded run begins with U+FEFF, in RFC 2152 and in the IMAP variant (section 5.1.3 of RFC 3501) |
| `Utf7.RunBomAt` | scripts/gasolina-parity/emit-http-framework-golden.ts:114-125 | some run begins with U+FEFF iff the text has one at its front or right after a unit that is written directly |
| `Utf7.DirectClass` | scripts/gasolina-parity/emit-http-framework-golden.ts:114-125 | the units written directly are those of the two patterns, class by class |
| `Utf7.BomIsLost` | crates/pillar-api/src/express.rs:422-468 | U+FEFF alone is a text that does not come back |
| `Utf7.SplitRun` | crates/pillar-api/src/express.rs:425-456 | splitting an unterminated run changes the units iff there are whole groups and the rest begins with U+FEFF |
| `ByteOrder.Detect16` | crates/pillar-api/src/express.rs:399-420 | counts as the specification function does |
| `ByteOrder.MarkedText16` | crates/pillar-api/src/express.rs:399-420 | any text behind a byte-order mark is recovered in either order, mark included |
| `ByteOrder.LatinText16` | crates/pillar-api/src/express.rs:399-420 | any non-empty text of U+0001..U+00FF is recovered without a mark in either order |
| `Detection.Recovered16` | crates/pillar-api/src/express.rs:375-420 | a text comes back from the detecting decoder iff it opens with the mark of its own order, or its first 32 units outvote the other order and it does not open with that one's mark, or every unit reads the same both ways |
| `Detection.DecodeReplaces` | crates/pillar-api/src/express.rs:392-397 | decoding changes surrogates that are not part of a pair and nothing else |
| `Detection.LostText16` | crates/pillar-api/src/express.rs:399-420 | U+0100 alone comes back in neither order |
| `ByteOrder.WordMeans` | crates/pillar-api/src/express.rs:331-347 | four bytes are one number to the base 256 |
| `ByteOrder.DecodeEncode32` | crates/pillar-api/src/express.rs:331-347 | UTF-32 text is recovered in a known order |
| `ByteOrder.Detect32` | crates/pillar-api/src/express.rs:349-373 | counts as the specification function does |
| `ByteOrder.MarkedText32` | crates/pillar-api/src/express.rs:349-373 | any text behind a byte-order mark is recovered in either order, mark included |
| `ByteOrder.BasicText32` | crates/pillar-api/src/express.rs:349-373 | any non-empty text of non-NUL BMP characters is recovered without a mark in either order |
| `Detection.Recovered32` | crates/pillar-api/src/express.rs:331-373 | the same for UTF-32 over the first hundred characters; a character reads as itself either way iff its bytes do or it is U+FFFD |
| `Detection.LostText32` | crates/pillar-api/src/express.rs:349-373 | U+10000 alone comes back in neither order |
| `Audit.WalletScope.Register` | crates/pillar-core/src/audit.rs:320-321 | appends an unmarked attempt |
| `Audit.BeginEffect` | crates/pillar-core/src/audit.rs:319-322 | an attempt is registered exactly when the store has begun it |
| `Audit.WalletScope.Recorded` | crates/pillar-core/src/audit.rs:95-99 | flags the first attempt with the id and no other |
| `Audit.MarkAt` | crates/pillar-core/src/audit.rs:95-99 | with distinct ids exactly that attempt is flagged |
| `Audit.OpenExact` | crates/pillar-core/src/audit.rs:87-94 | the open ids are exactly those of unmarked attempts |
| `Audit.SigningAuditStore.Record` | crates/pillar-core/src/audit.rs:58-63 | appends the evidence iff it commits; it may commit and still report a failure |
| `Audit.RecordEffect` | crates/pillar-core/src/audit.rs:265-286 | an effect's attempt is marked exactly when the store has accepted the record |
| `Audit.FinishWallet` | crates/pillar-core/src/audit.rs:229-255 | exactly the attempts before the first store error are marked; the log gains, in order, a returned signature's fingerprint or an unknown outcome without one for each of them, and perhaps for the next; a signature is returned iff there was an attempt and no store error; what is unmarked is handed over |
| `AuditRuns.RunKeepsInv` | crates/pillar-core/src/audit.rs:216-322 | the invariant of every interleaving of effects, store faults, recording, cancellation and guard |
| `AuditRuns.SuccessIsDurable` | crates/pillar-core/src/audit.rs:229-255 | a signature returned is the future's own; at least one attempt was registered when it came, and every such attempt is durably begun, has durable evidence of that signature and is not handed over |
| `AuditRuns.AnswerStays` | crates/pillar-core/src/audit.rs:229-235 | the attempts meant are exactly those registered when the signing future returned; later ones change nothing |
| `AuditRuns.EffectsAreBegun` | crates/pillar-core/src/audit.rs:288-322 | no external effect runs without a durable, registered attempt |
| `AuditRuns.EffectsAreRemembered` | crates/pillar-core/src/audit.rs:288-322 | and what is meant by an effect that ran: one whose effect step was taken, from then on |
| `AuditRuns.EveryEffectAccounted` | crates/pillar-core/src/audit.rs:101-125 | from the moment the wallet is left, the attempt of every effect that ran by then is handed over or has durable evidence |
| `AuditRuns.MarkMeansEvidence` | crates/pillar-core/src/audit.rs:265-286 | an attempt is marked only after something was recorded for it |
| `AuditRuns.GuardIsExact` | crates/pillar-core/src/audit.rs:101-125 | on every way out the guard takes over exactly the attempts registered and not marked at that moment; the others have evidence |
| `AuditRuns.HandedAndMarked` | crates/pillar-core/src/audit.rs:265-286 | an attempt handed over is marked in the end iff its own effect, having outlived the wallet, got a record accepted afterwards |
| `AuditRuns.LateMarkIsReached` | crates/pillar-core/src/audit.rs:101-125 | a run in which that happens |
| `AuditRuns.SuccessHandsOverNothing` | crates/pillar-core/src/audit.rs:101-125 | after success, with nothing registered since the future returned, nothing is handed over |
| `AuditRuns.DroppedStaysRegistered` | crates/pillar-core/src/audit.rs:229-230 | what the guard saw stays registered; only attempts registered later come after it |
| `AuditRuns.SuccessIsReached` | crates/pillar-core/src/audit.rs:216-255 | a run that returns a signature |
| `AuditRuns.LogIsHonest` | crates/pillar-core/src/audit.rs:236-252 | the log never claims a signature the signing future did not return |
| `AuditRuns.FailureIsUnknown` | crates/pillar-core/src/audit.rs:240-252 | a signing future that failed is recorded as an unknown outcome without a signature, for each of its attempts in turn |
| `AuditRuns.AllRecordedReturns` | crates/pillar-core/src/audit.rs:244-255 | with every record accepted the wallet ends with the future's own answer, or by cancellation |
| `AuditRuns.GuardWritesUnknown` | crates/pillar-core/src/audit.rs:101-125 | the guard writes an unknown outcome without a signature for an attempt it took over, and changes nothing else |
| `AuditRuns.EvidenceIsOfBegun` | crates/pillar-core/src/audit.rs:101-322 | in every run an unknown outcome names no signature, and all evidence is of attempts durably begun |
| `Connections.ConnectionControl.Start` | crates/pillar-cli/src/connections.rs:95-100 | clears the flags and takes the request |
| `Connections.ConnectionControl.Flushed` | crates/pillar-cli/src/connections.rs:113-119 | turns idle, with no write deadline, exactly when the body was complete |
| `Connections.ResponseBody.constructor` | crates/pillar-cli/src/response_body.rs:11-28 | the declared length wins over the exact hint; an empty body is complete at once |
| `Connections.ResponseBody.PollFrame` | crates/pillar-cli/src/response_body.rs:34-58 | past the deadline it reports a time-out and asks nothing; otherwise it passes on data, trailers, errors and waiting alike, counts data down, and completes at the end of the stream or of the declared length |
| `Connections.OwedIsDeclaredLessSent` | crates/pillar-cli/src/response_body.rs:46-55 | the count reaches zero exactly when the declared number of bytes has gone out |
| `Connections.Connections.Register` | crates/pillar-cli/src/connections.rs:41-67 | a fresh connection that is not idle joins the registry |
| `Connections.Connections.Unregister` | crates/pillar-cli/src/connections.rs:25-32 | dropping a registration removes that connection and no other |
| `Connections.Connections.EvictIdle` | crates/pillar-cli/src/connections.rs:68-74 | tells exactly the idle connections to close and touches nothing else of any |
| `Connections.Connections.Drain` | crates/pillar-cli/src/connections.rs:78-82 | tells every connection to close |
| `Connections.Connections.Cancel` | crates/pillar-cli/src/connections.rs:83-89 | shuts down exactly the requests in a handler |
| `ConnectionRuns.RunKeepsInv` | crates/pillar-cli/src/connections.rs:68-119 | every interleaving of the stores of the connection task and of the evictor keeps the invariant |
| `ConnectionRuns.IdleIsQuiet` | crates/pillar-cli/src/main.rs:571-583 | a connection flagged idle has no request in its handler, no write deadline, and its latest response produced and flushed |
| `ConnectionRuns.EvictionSparesResponses` | crates/pillar-cli/src/connections.rs:68-74 | the evictor never selects a connection in the middle of a response |
| `ConnectionRuns.BusyUntilFlushed` | crates/pillar-cli/src/connections.rs:95-119 | from a request's start until its own response is flushed the flag stays down |
| `ConnectionRuns.BufferedUntilFlush` | crates/pillar-cli/src/connections.rs:101-119 | a response, even an empty one, stays buffered and its connection busy until a flush |
| `ConnectionRuns.UntouchedUntilStarted` | crates/pillar-cli/src/connections.rs:41-67 | before its first request a connection has none of its flags up, whatever is flushed or evicted |
| `ConnectionRuns.EvictingMeans` | crates/pillar-cli/src/connections.rs:68-74 | the evictor is about to signal exactly when some swap of its own found the flag up and it has not signalled since |
| `ConnectionRuns.ClosingMeans` | crates/pillar-cli/src/connections.rs:68-82 | a connection has been told to close iff the drain, or an eviction that had selected it, has told it |
| `ConnectionRuns.StartStores` | crates/pillar-cli/src/connections.rs:95-100 | the four stores of `start`, left alone, do to the flags what `ConnectionControl.Start` does |
| `ConnectionRuns.WritingStores` | crates/pillar-cli/src/response_body.rs:18-28 | so do those of `writing` and, for an empty body, `body_complete` |
| `ConnectionRuns.FlushedStores` | crates/pillar-cli/src/connections.rs:113-119 | and those of `flushed`, complete body or not |
| `ConnectionRuns.IdleIsReached` | crates/pillar-cli/src/connections.rs:68-119 | a run in which a connection serves a response, turns idle and is evicted |
| `AcceptRuns.RunKeepsInv` | crates/pillar-cli/src/main.rs:143-311 | every run keeps the permits, the registry and the deadlines consistent |
| `AcceptRuns.PermitsConserved` | crates/pillar-cli/src/main.rs:143-311 | in every run permits are conserved and the registry stays within the live tasks |
| `AcceptRuns.StoppedClean` | crates/pillar-cli/src/main.rs:227-250 | on normal return no connection, registry entry or permit is outstanding |
| `AcceptRuns.NothingAcceptedAfterEnd` | crates/pillar-cli/src/main.rs:196-228 | once an accept loop has been left for good nothing is accepted, registered or spawned again |
| `AcceptRuns.AcceptsStopInTime` | crates/pillar-cli/src/main.rs:191-225 | however busy the listener, nothing is accepted once the withdrawal end is due, and at most one connection is still spawned |
| `AcceptRuns.DeadlinesAreFromShutdown` | crates/pillar-cli/src/main.rs:189-191 | the grace deadline and the withdrawal end are measured from the poll that saw the shutdown, at every later moment; the withdrawal ends after its own length or with the grace, whichever comes first |
| `AcceptRuns.ShutdownWasSeen` | crates/pillar-cli/src/main.rs:160-189 | there is such a poll, of the accept loop and after a successful signal, whenever the shutdown has been seen |
| `AcceptRuns.BackoffHolds` | crates/pillar-cli/src/main.rs:160-172 | after a failed accept nothing is accepted for the back-off, unless that loop is left |
| `AcceptRuns.BackoffEnds` | crates/pillar-cli/src/main.rs:160-172 | a poll after the back-off returns to accepting, and one before it only looks at `stop` |
| `AcceptRuns.SpawnsPastEnd` | crates/pillar-cli/src/main.rs:252-275 | with the end due a connection can still be spawned iff one holds its permit, or is at the top of `connection_permit` with a permit that is free or can become free |
| `AcceptRuns.TieGoesToStop` | crates/pillar-cli/src/main.rs:252-275 | with a permit free and `stop` ready, `stop` wins iff the connection was already waiting |
| `AcceptRuns.StopLosesATie` | crates/pillar-cli/src/main.rs:252-275 | a run in which `stop` is ready, a permit is free, and the permit wins |
| `AcceptRuns.PermitPolls` | crates/pillar-cli/src/main.rs:252-275 | when a poll for a permit gets one, waits, or starts again from the top, each exactly |
| `AcceptRuns.IdleReports` | crates/pillar-cli/src/main.rs:252-275 | a report of an idle connection is kept until a waiting connection takes it up |
| `AcceptRuns.ClosedIffFoundLate` | crates/pillar-cli/src/main.rs:229-237 | in every run the budgets are closed iff some poll of the drain, at or past the grace deadline, found a connection left |
| `AcceptRuns.OnePollDecides` | crates/pillar-cli/src/main.rs:229-249 | exactly one poll ends the drain, and the budgets are closed iff it found a connection left |
| `AcceptRuns.LateIsClosedIfPolled` | crates/pillar-cli/src/main.rs:229-237 | with a connection left at the deadline, the budgets are closed iff one is still left when the drain is next polled |
| `AcceptRuns.LateCanStayOpen` | crates/pillar-cli/src/main.rs:229-249 | a run with a connection left at the deadline that returns with the budgets open |
| `AcceptRuns.LateCanClose` | crates/pillar-cli/src/main.rs:229-249 | a run with one left that closes them and returns |
| `Client.EvmAddressBytes` | crates/pillar-client/src/lib.rs:600-616 | `Some` iff the text is `0x` and forty hexadecimal digits; byte i is written by digits 2i and 2i + 1, and the twenty bytes write the number the digits write |
| `Client.EvmDigitsMean` | crates/pillar-client/src/lib.rs:600-616 | the texts with an EVM form are exactly `0x` or `0X` followed by forty of 0-9, a-f and A-F |
| `Client.HexDigitMeans` | crates/pillar-client/src/lib.rs:611-612 | a digit is worth its place in `0123456789abcdef`, in either case |
| `Client.CaseDoesNotMatter` | crates/pillar-client/src/lib.rs:600-616 | addresses that differ only in case are EVM addresses together, with the same value |
| `Client.LexIsNumeric` | crates/pillar-client/src/lib.rs:592-598 | equally long byte arrays compare as their big-endian values |
| `Client.SignerOrderMeans` | crates/pillar-client/src/lib.rs:592-598 | the compared tuples put EVM addresses first, ascending by 160-bit value, and otherwise go by text |
| `Client.SignerLessMeans` | crates/pillar-client/src/lib.rs:592-598 | two EVM addresses go by the number their digits write, and by text when that is the same; an EVM address comes before any other text; other texts go by text |
| `Client.SignerOrderTotal` | crates/pillar-client/src/lib.rs:592-598 | the order is total, asymmetric and irreflexive |
| `Client.SignerOrderTransitive` | crates/pillar-client/src/lib.rs:592-598 | the order is transitive |
| `Client.SortIsSorted` | crates/pillar-client/src/lib.rs:299-301 | sorting permutes the signatures into signer order |
| `Client.SortIsStable` | crates/pillar-client/src/lib.rs:299-301 | signatures of the same address keep the order they came in |
| `Client.SortIsOnly` | crates/pillar-client/src/lib.rs:299-301 | signer order and the order within each address together determine the result |
| `Client.ArrivalDoesNotMatter` | crates/pillar-client/src/lib.rs:299-301 | with different addresses the result does not depend on the order of arrival |
| `Client.FirstPayloadMeans` | crates/pillar-client/src/lib.rs:260-339 | the payload kept is that of the first answer that was a response, and there is none iff all failed |
| `Client.CallResolveAndSign` | crates/pillar-client/src/lib.rs:260-339 | `Ok` at the first success whose running total reaches the quorum, with all signatures collected by then in signer order, those of one address as they came, and the first payload; otherwise an error after every URI has answered |

## Left out

- The messages of errors, and the labels that keep input out of them.
- Reading the JSON files, the providers-hash binding, headers and URIs of providers.
- `is_met_by`, health ranking and the delays of a dispatch plan; the model starts from healthy providers and ends with the first wave.
- `Decoder::for_label`, UTF-8 decoding and decompression.
- `Audit.FinishWallet`: one wallet left to itself; interference is in `AuditRuns`.
- `Audit.BeginEffect`: does not model the refusals before the store is asked, for want of a wallet scope or of a resolved key.
- Reserving a worker for the guard, completion timeouts, and whether a handed-over attempt is ever recorded.
- Liveness of the accept loop, of eviction and of collection; only safety is stated.
- Timeouts of idle connections, of header reads and of lifetimes, which end a connection as `Fail` does.
- `ConnectionRuns` takes one connection; the registry of several is in `Connections` and `AcceptRuns`.
- `Client.CallResolveAndSign`: transport and response decoding; an answer is a decoded response or an error.
- The admission scheduler, signers, chain adapters and HTTP routing.
