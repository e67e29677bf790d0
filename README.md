# WORLDSIM India Ecosystem: a verified model of the simulation core

WORLDSIM runs a multi-agent model of ten Indian states (PB, MH, TN, KA, GJ, UP,
BR, WB, RJ, MP). Each state holds water, energy, food and tech, has a GDP,
welfare, population and trust score, and is run by an LLM "governor". A world
tick produces and consumes resources and enforces the bilateral treaties
between states. Broken treaty legs cost trust. A tick also draws climate
shocks, matches automatic trades, moves people out of low-welfare states, and
every fifty ticks convenes a federal assembly that votes on policies. A FastAPI
server keeps capped dashboard logs and queues "federal interventions" from the
dashboard. It applies those interventions to the region data and broadcasts a
ranking of the states by GDP. A CSV store indexes a synthetic dataset and
answers the dashboard's history and activity queries.

This project models that core in Dafny and proves what it promises:

- **Modules.** There is one module per source file: `TreatyManager`,
  `WorldEnv` (with its pure step functions in `WorldSteps`), `ClimateEngine`,
  `Parliament`, `ApiServer` and `CsvData`. Three more are shared: `Domain` for
  the region and report records, `Config` for the constants, and `Common` for
  Python dicts, slices, filtering, stable sorting and `%03d` formatting.
- **State as classes.** The objects the source updates in place are classes
  with `modifies` clauses: the treaty manager, the climate engine, the
  assembly, the world environment, the server state and the CSV store.
- **Methods against specifications.** Their loops are methods with
  invariants. Each is proved equal to a specification function, and the
  properties are proved about those functions.
- **Python dicts.** A dict whose iteration order matters is a sequence of
  key/value pairs. `regions_data` is a map keyed by state code.
- **Inputs from outside.** Random draws, LLM answers and the iteration order
  of a dict the source only reads are parameters.

A few behaviours of the source worth knowing:

- **Treaty legs read live data.** A treaty's request legs see the holdings the
  offer legs have just written, because both read the same dict.
- **Interventions on a known target.** An intervention naming a known target
  always takes the targeted branch, even for `gdp_crash` or `stimulus`. It
  then changes no region and still queues one recovery message
  (`ApiServer.NationalWithTarget`).
- **Unknown votes count as YES.** Any vote other than YES or NO counts as YES.
  The 60% majority test is exactly "at least three in five votes"
  (`Parliament.PassesIsThreeFifths`).
- **Climate countdown.** A freshly triggered climate event is counted down in
  the same tick, so it ends that tick at its duration minus one
  (`ClimateEngine.TickStartsShock`).
- **Self-trade.** A direct trade of a region with itself changes nothing,
  because both sides are the same dict (`WorldSteps.SelfTradeKeeps`).

## Model

| member | source | states |
|---|---|---|
| TreatyManager.FromDict | engine/treaty_manager.py:50-65 | A missing required key (id, parties, offer, request, duration) gives no treaty, standing in for the KeyError. Otherwise id, both parties, offer, request and duration come from the dict, and the optional keys default: the counter to the duration, conditions to "", active to true, no breaches, created tick 0 |
| TreatyManager.ToDict | engine/treaty_manager.py:35-48 | The record has every required key, and `from_dict` of it gives back exactly the same treaty |
| TreatyManager.LegStep | engine/treaty_manager.py:173-200 | A leg is delivered exactly when the giver holds at least the amount. A breach records the available holding, which is below the promise. A breach, or a run without update callback, leaves the regions unchanged |
| TreatyManager.DeliveredLegConserves | engine/treaty_manager.py:175-180 | A delivered leg between two distinct known regions moves exactly the amount from giver to taker and keeps their total. No other holding changes |
| TreatyManager.RunLegs | engine/treaty_manager.py:173-200 | One outcome per leg. Without a callback the regions are unchanged, and no region is added or removed |
| TreatyManager.RunLegsShape | engine/treaty_manager.py:173-200 | Each outcome is about its own leg's resource and amount. Every breach has available below promised |
| TreatyManager.RunLegsAccounted | engine/treaty_manager.py:173-200 | Along one side of a treaty, every leg ends in one transfer or one breach note, with one breach record per note. Every shortfall is positive and blames that side's giver |
| TreatyManager.LegsAccounted | engine/treaty_manager.py:181-200 | Transfers plus breach notes number the legs, with one breach record per note. Every shortfall is positive and blames the giver. Every transfer is DELIVERED in the leg's direction |
| TreatyManager.EnforceSingleAccounting | engine/treaty_manager.py:156-234 | Every offer and request leg ends in exactly one transfer or one breach. Shortfalls are positive and breachers are parties. The treaty's breach list grows by exactly one record per breach, after the old ones, and nothing else in the treaty changes. The result carries the treaty id and parties |
| TreatyManager.EnforceAll | engine/treaty_manager.py:137-147 | One processed entry per listed treaty. The region keys are kept |
| TreatyManager.EnforceAllShape | engine/treaty_manager.py:137-147 | One result per active treaty. Inactive treaties are skipped untouched. Each active one loses one tick and expires exactly when it reaches 0 or less; it is inactive exactly when expired, and its other fields are kept |
| TreatyManager.EnforceStepRelates | engine/treaty_manager.py:138-147 | A treaty yields a result exactly when it is active, and its processing relates as above |
| TreatyManager.ExpiryPartitions | engine/treaty_manager.py:144-152 | Kept and moved treaties together number the listed ones. Moved treaties are inactive with no ticks left. If all were active, kept ones are active with ticks left. No region is party to more kept treaties than before |
| TreatyManager.InvolvingRegion | engine/treaty_manager.py:264-269 | The exact list is never longer than the input |
| TreatyManager.InvolvingRegionExact | engine/treaty_manager.py:264-269 | A treaty is listed exactly when it is active and names the code, and the filter keeps list order (it distributes over concatenation) |
| TreatyManager.InvolvingMembers | engine/treaty_manager.py:94-97 | The same membership fact, for the counts `create_treaty` takes |
| TreatyManager.ApplyBreaches | engine/treaty_manager.py:253-256 | Penalising breaches changes no key |
| TreatyManager.ApplyBreachesValue | engine/treaty_manager.py:253-256 | Each region loses the breach penalty (15) once per breach it committed |
| TreatyManager.AdjustOne | engine/treaty_manager.py:245-260 | Handling one result gives both of its parties a key |
| TreatyManager.AdjustOneValue | engine/treaty_manager.py:245-260 | One result adds the honour bonus (2) to each party when it has no breaches, and otherwise takes 15 per breach from its breacher |
| TreatyManager.TrustSpec | engine/treaty_manager.py:243-262 | The keys are exactly the regions named as a party in some result |
| TreatyManager.TrustMatchesExpected | engine/treaty_manager.py:236-262 | Every named party gets a key. Each region's adjustment is the sum over results of +2 per party of a breach-free result (twice for a region on both sides) and -15 per breach it committed |
| TreatyManager.NonPartyUntouched | engine/treaty_manager.py:245-262 | A region never named in a result has adjustment 0 |
| TreatyManager.BlamesPartiesNamed | engine/treaty_manager.py:253-256 | When every breacher is a party of its result, every breacher has a key by the time its penalty is applied (no KeyError) |
| TreatyManager.EnforceAllBlamesParties | engine/treaty_manager.py:189-199 | Enforcement only blames a treaty's own parties, so its results always meet that condition |
| TreatyManager.Manager.constructor | engine/treaty_manager.py:74-77 | Empty lists and counter 0 |
| TreatyManager.Manager.CreateTreaty | engine/treaty_manager.py:79-119 | Fails exactly when either party already has 5 or more active treaties, and then changes nothing. Otherwise the counter rises by one and the new treaty is appended last. It carries id `Treaty_%03d_from_to`, the offer, request and conditions, duration defaulting to 20, all ticks remaining, active, no breaches, created at the current tick. The manager invariant and the per-state limit are kept |
| TreatyManager.Manager.EnforceLeg | engine/treaty_manager.py:173-200 | Computes `LegStep` |
| TreatyManager.Manager.RecordLeg | engine/treaty_manager.py:181-200 | A delivered leg adds one transfer. A breach adds one breach note and one breach record |
| TreatyManager.Manager.EnforceLegs | engine/treaty_manager.py:173-232 | The leg loop yields the transfers, notes, records and regions of `RunLegs` |
| TreatyManager.Manager.EnforceSingle | engine/treaty_manager.py:156-234 | `_enforce_single` as specified by `EnforceSingleSpec` |
| TreatyManager.Manager.EnforceTreaties | engine/treaty_manager.py:121-154 | The results are those of `EnforceAll`, one per active treaty. The kept treaties stay in order, and the expired ones are appended to the expired list in order. The combined count and the counter are kept, and so are the invariant and the per-state limit |
| TreatyManager.Manager.EnforceList | engine/treaty_manager.py:134-152 | The loop over the list computes `EnforceAll`'s results, kept and moved treaties |
| TreatyManager.Manager.ProcessTreaty | engine/treaty_manager.py:137-147 | One loop iteration is `EnforceStep` |
| TreatyManager.Manager.CalculateTrustAdjustments | engine/treaty_manager.py:236-262 | The dict has the named parties as keys, and each region's value is its expected adjustment |
| TreatyManager.Manager.PenalizeBreaches | engine/treaty_manager.py:253-256 | The breach loop computes `ApplyBreaches` |
| TreatyManager.Manager.AdjustForResult | engine/treaty_manager.py:245-260 | The loop body for one result computes `AdjustOne` |
| TreatyManager.Manager.TreatiesForRegion | engine/treaty_manager.py:264-269 | Exactly the active treaties naming the code |
| TreatyManager.Manager.GetSummary | engine/treaty_manager.py:271-278 | The counts are the list lengths and the counter, and active plus expired equals created under the invariant. One record per active treaty, each reading back as that treaty |
| Common.ZeroPadRoundTrip | engine/treaty_manager.py:105 | The `%03d` counter in a treaty id reads back as the counter |
| Common.ZeroPadInjective | engine/treaty_manager.py:105 | Distinct counters give distinct padded numbers, so treaty ids and meeting ids never repeat |
| ClimateEngine.Engine.constructor | engine/climate_engine.py:39-41 | No event is active, and the last shock is one minimum interval (5) before tick 0, so a shock may start at tick 0 |
| ClimateEngine.Duration | engine/climate_engine.py:108-128 | Every duration, 5 for an unknown event, is above 1 |
| ClimateEngine.Target | engine/climate_engine.py:118-129 | A table event targets one of the ten state codes |
| ClimateEngine.SelectEvent | engine/climate_engine.py:89-103 | Nothing exactly when all seven events are active. Otherwise the drawn event is a table event that is not active |
| ClimateEngine.TriggerWellFormed | engine/climate_engine.py:128-131 | Triggering keeps the active events consistent and sets the event's counter to its duration |
| ClimateEngine.ExpiredEvents | engine/climate_engine.py:78-85 | One EXPIRED report per expired event, in order |
| ClimateEngine.TickSpec | engine/climate_engine.py:43-87 | The reports start with a TRIGGERED one exactly when the interval has passed, the roll succeeds and an event is available. That event was not active, and every later report is an EXPIRED one, so a tick triggers at most one event. The last-shock tick becomes the current tick exactly when an event was triggered, and is unchanged otherwise |
| ClimateEngine.TickReportsExpiries | engine/climate_engine.py:72-85 | The EXPIRED reports of a tick name exactly the events that had one tick left, and no report appears twice. A freshly triggered event never expires in its first tick |
| ClimateEngine.CountDownWellFormed | engine/climate_engine.py:72-79 | The countdown keeps the active events consistent, with all counters positive |
| ClimateEngine.TickWellFormed | engine/climate_engine.py:43-87 | A whole tick keeps that invariant |
| ClimateEngine.TickCountsDown | engine/climate_engine.py:72-86 | Every active event loses exactly one tick. One with one tick left is removed and reported EXPIRED |
| ClimateEngine.TickStartsShock | engine/climate_engine.py:57-74 | A triggered event ends its tick at duration - 1, and the last-shock tick is the current tick |
| ClimateEngine.CountDownOne | engine/climate_engine.py:72-85 | The countdown alone takes one tick from an event with more than one left, and removes and reports an event with one left |
| ClimateEngine.RunCountsDown | engine/climate_engine.py:72-79 | Over fewer ticks than it has left, an event stays active and loses one tick per tick |
| ClimateEngine.AffectedRegions | engine/climate_engine.py:144-155 | Only state codes are affected |
| ClimateEngine.TriggerAffects | engine/climate_engine.py:144-155 | A triggered table event makes its target an affected region |
| ClimateEngine.ExpiryClearsTarget | engine/climate_engine.py:144-155 | No two events share a target, so removing an event removes exactly its target from the affected set |
| ClimateEngine.Engine.TriggerEvent | engine/climate_engine.py:105-142 | Reports the event with its target and duration, and (re)starts it with its full duration (also `force_trigger`, 157-159) |
| ClimateEngine.Engine.Tick | engine/climate_engine.py:43-87 | The new state and the reports are those of `TickSpec`. The invariant is kept |
| ClimateEngine.DecrementAll | engine/climate_engine.py:72-76 | Every counter drops by one. The expired list holds the events that reach 0, in dict order |
| ClimateEngine.DeleteExpired | engine/climate_engine.py:78-85 | Exactly the expired events are deleted, each reported once in order |
| ClimateEngine.CountDownMatches | engine/climate_engine.py:72-85 | The two in-place loops together compute `CountDown` |
| Parliament.NationalSummary | engine/parliament.py:156-167 | One entry per report, with its deficits and surplus names. The name defaults to the code |
| Parliament.ProposalsOf | engine/parliament.py:50-58 | One proposal per code present among both the governors and the reports |
| Parliament.ProposalsFromParticipants | engine/parliament.py:50-58 | The i-th proposal is the i-th participant's, in state order, given the national summary |
| Parliament.PassesIsThreeFifths | engine/parliament.py:104-106 | The 0.6 share test passes exactly when there is a voter and 5·yes >= 3·total. No voters means rejection |
| Parliament.TallyCounts | engine/parliament.py:83-106 | Each participant votes exactly once and nobody else votes. Any answer other than NO counts as YES. The proposal passes exactly when at least three in five vote YES |
| Parliament.TallyAll | engine/parliament.py:75-119 | One vote record per proposal, in order |
| Parliament.NewResolutions | engine/parliament.py:125-131 | One resolution per passed record, in voting order, stamped with the meeting tick |
| Parliament.PassedNamesMembership | engine/parliament.py:125-126 | A name is in `passed_resolutions` exactly when some record with that name passed |
| Parliament.PassedNamesAtMost | engine/parliament.py:125-126 | No more passed names than votes |
| Parliament.MeetingShape | engine/parliament.py:45-147 | The meeting counts every participant's proposal. It votes on the first min(3, n), in order, each tallied as `Tally` of that participant's proposal. At most that many pass |
| Parliament.LapsedStaysLapsed | engine/parliament.py:169-177 | A resolution no longer in force stays that way at later ticks |
| Parliament.HistoryStep | engine/parliament.py:38-39 | Appending meeting number n+1 keeps the history numbered `meeting_001`, `meeting_002`, … |
| Parliament.CollectProposals | engine/parliament.py:47-58 | The proposal loop computes `ProposalsOf` in state order |
| Parliament.VoteOn | engine/parliament.py:81-119 | The vote loop computes `Tally` |
| Parliament.VoteOnAll | engine/parliament.py:72-131 | The voting loop yields `TallyAll`, the passed names and the new resolutions |
| Parliament.VotingStep | engine/parliament.py:75-131 | One more vote extends the records by its tally, and the passed names and resolutions by its name exactly when it passed |
| Parliament.Assembly.constructor | engine/parliament.py:19-22 | No meetings, no resolutions |
| Parliament.Assembly.ConveneAssembly | engine/parliament.py:24-154 | The meeting count rises by one, and the meeting gets id `meeting_%03d` of the new count. The passed resolutions are appended in order, and exactly one entry is appended to the history. The numbering invariant is kept |
| Parliament.Assembly.GetActiveResolutions | engine/parliament.py:169-177 | Exactly the resolutions still in force, in their adoption order. A resolution is in force while fewer ticks than its duration (default 100) have passed since it was adopted, and once lapsed it stays lapsed (`LapsedStaysLapsed`) |
| Domain.SetResource | engine/world_env.py:509-513 | A known region gets the new holding and nothing else changes. An unknown code changes nothing |
| WorldSteps.AssemblySpacing | engine/world_env.py:137-138 | Two assembly ticks are at least 50 apart |
| WorldSteps.AssemblyInEveryWindow | engine/world_env.py:137-138 | With the LLM on, every 50-tick window holds an assembly tick |
| WorldSteps.Produced | engine/world_env.py:166-170 | The new holding is current + generated - consumed, or 0 when that is negative |
| WorldSteps.NewResources | engine/world_env.py:165-170 | Exactly water, energy, food and tech, each produced as above and never negative |
| WorldSteps.ProduceAll | engine/world_env.py:159-173 | Each of the ten states gets its new resources. No other region and no other field changes |
| WorldSteps.ClampTrust | engine/world_env.py:215-216 | The trust lies in [0, 100], and equals current + adjustment when that is in range |
| WorldSteps.WithTrust | engine/world_env.py:213-216 | Each known region with an adjustment gets its clamped trust (100 when missing) and changes nothing else. The other regions are untouched |
| WorldSteps.ApplyUpdates | engine/world_env.py:509-513 | Only the named region can change. An unknown code changes nothing |
| WorldSteps.UpdatesEffect | engine/world_env.py:509-513 | Every listed resource takes its new value. Every other holding and every other field is kept |
| WorldSteps.DirectTrade | engine/world_env.py:515-531 | Only the two trading regions can change |
| WorldSteps.LegConserves | engine/world_env.py:522-525 | One transfer keeps the pair's total of every resource and touches only its own resource |
| WorldSteps.LegsConserve | engine/world_env.py:522-531 | A side of the trade keeps the pair's totals |
| WorldSteps.DirectTradeConserves | engine/world_env.py:515-531 | Between two distinct known regions, each resource's two-region total is conserved |
| WorldSteps.LegsNonNegative | engine/world_env.py:523-530 | Transfers capped at the giver's holding never make a holding negative |
| WorldSteps.DirectTradeNonNegative | engine/world_env.py:515-531 | With non-negative holdings and amounts, no holding goes negative |
| WorldSteps.SharedLegsKeep | engine/world_env.py:518-531 | When both sides are one dict, every holding is kept |
| WorldSteps.SelfTradeKeeps | engine/world_env.py:515-531 | A trade of a region with itself leaves its holdings as they were |
| WorldSteps.DirectTradeKeepsTotals | engine/world_env.py:515-531 | A trade between two states keeps the national total of every resource |
| WorldSteps.FirstSupplier | engine/world_env.py:349-356 | The first code in order, other than the requester, whose surplus of the requested resource covers the amount. Nothing exactly when there is none |
| WorldSteps.MatchOneShape | engine/world_env.py:336-369 | A recommendation yields at most one trade, and none changes nothing. A trade needs action TRADE, both resources named and a positive offer. It goes from the requester to the first able supplier and carries the offer and the request |
| WorldSteps.MatchOneKeepsTotals | engine/world_env.py:336-369 | Matching one recommendation keeps every national total |
| WorldSteps.MatchRecsKeepsTotals | engine/world_env.py:336-369 | A state's recommendations keep every national total and yield at most one trade each |
| WorldSteps.MatchCodesKeepsTotals | engine/world_env.py:332-369 | The whole trade-matching step keeps every national total |
| WorldSteps.BestFrom | engine/world_env.py:380-389 | The chosen destination is another known state with positive welfare equal to the best. No other state's welfare exceeds it |
| WorldSteps.BestIsEarliest | engine/world_env.py:383-389 | Every earlier state has strictly lower welfare, so ties go to the earliest in state order |
| WorldSteps.Migrants | engine/world_env.py:393 | `int(pop * 0.02)`: for a positive population, the largest m with 50·m at most the population. Otherwise 0 |
| WorldSteps.MigrateOne | engine/world_env.py:374-402 | No region is added or removed |
| WorldSteps.MigrateOneShape | engine/world_env.py:374-402 | A state migrates only under welfare 35 (50 when missing). People go to the best other state, whose welfare must exceed the source's, and the number moved is positive. The source loses exactly what the destination gains, and nothing else changes |
| WorldSteps.MigrateOneKeepsPopulation | engine/world_env.py:374-402 | One state's migration keeps the total population |
| WorldSteps.MigrateCodes | engine/world_env.py:374-405 | No region is added or removed |
| WorldSteps.MigrationKeepsPopulation | engine/world_env.py:371-405 | The whole migration step keeps the total population |
| WorldEnv.RegionView | engine/world_env.py:573-579 | An unknown region reads as empty resources, zero GDP, welfare and population, with trust 100. A known one shows its own resources, GDP, welfare, population and trust, with a missing number read as 0 and missing trust as 100 |
| WorldEnv.World.constructor | engine/world_env.py:32-45 | Fresh sub-systems with their invariants, the loaded regions, and the saved tick or 0 (`initialize`, 71-81) |
| WorldEnv.World.AdvanceTick | engine/world_env.py:94 | The tick rises by exactly one. The assembly is due exactly when the new tick is a multiple of 50 and the LLM is on (137-138) |
| WorldEnv.World.ProduceConsume | engine/world_env.py:157-174 | The regions become `ProduceAll` of the old ones. The resource updates hold each state's new resources |
| WorldEnv.World.EnforceTreatiesStep | engine/world_env.py:199-216 | With no active treaty nothing happens. Otherwise the results, regions and treaty lists are those of enforcement, followed by the clamped trust adjustments. Every adjusted known region ends with trust in [0, 100] |
| WorldEnv.World.UpdateRegionResourcesLocal | engine/world_env.py:509-513 | The regions become `ApplyUpdates` of the old ones |
| WorldEnv.World.ExecuteDirectTrade | engine/world_env.py:515-531 | The regions become `DirectTrade` of the old ones |
| WorldEnv.World.StepTradeMatching | engine/world_env.py:328-369 | The regions and trades are those of `MatchCodes` over the state order. With all ten states loaded every national total is conserved |
| WorldEnv.World.StepMigration | engine/world_env.py:371-405 | The regions and migrations are those of `MigrateCodes`, and the total population is conserved |
| WorldEnv.World.GetStateSnapshot | engine/world_env.py:569-583 | Exactly the ten state codes as region keys, each read as `RegionView` reads it. The treaty part is the manager's `get_summary`, and the active events are listed in their order. The i-th resolution name is the name of the i-th passed resolution |
| WorldEnv.NewResourcesLoop | engine/world_env.py:165-170 | The inner loop computes `NewResources` |
| WorldEnv.ProduceKinds | engine/world_env.py:165-170 | The loop over the resource kinds maps each to its produced value |
| WorldEnv.ProduceLoop | engine/world_env.py:159-174 | The loop over the states rewrites each listed state's resources and records the same map |
| WorldEnv.ClampTrustLoop | engine/world_env.py:213-216 | The adjustment loop computes `WithTrust` |
| WorldEnv.TransferLeg | engine/world_env.py:522-525 | One transfer, as `Leg` |
| WorldEnv.TransferLegs | engine/world_env.py:522-531 | One side's loop, as `Legs` |
| WorldEnv.DirectTradeOn | engine/world_env.py:515-531 | Both loops, as `DirectTrade` |
| WorldEnv.FindSupplier | engine/world_env.py:349-356 | The partner loop finds `FirstSupplier` and its available amount |
| WorldEnv.MatchRecsLoop | engine/world_env.py:336-369 | The loop over one state's recommendations computes `MatchRecs` |
| WorldEnv.MatchLoop | engine/world_env.py:332-369 | The loop over the states computes `MatchCodes` |
| WorldEnv.FindDestination | engine/world_env.py:380-389 | The destination loop computes `BestFrom` |
| WorldEnv.MigrateStep | engine/world_env.py:375-402 | One state's migration, as `MigrateOne` |
| WorldEnv.MigrateLoop | engine/world_env.py:374-405 | The migration loop computes `MigrateCodes` |
| ApiServer.PushNewest | api_server.py:69-72 | The new trade comes first, the log keeps at most 50, and the rest is a prefix of the old log |
| ApiServer.KeepLast | api_server.py:74-82 | The new entry comes last, and the log is the last min(n + 1, cap) entries of old log plus the entry (50 or 30) |
| ApiServer.KeepLastAllIsSuffix | api_server.py:74-77 | Adding messages one by one leaves the last `cap` of old log plus messages |
| ApiServer.PushNewestAllIsPrefix | api_server.py:69-72 | Adding trades one by one leaves the first `cap` of the reversed new trades followed by the old log |
| ApiServer.KeepLastAllCapped | api_server.py:74-77 | The capped log never exceeds its cap |
| ApiServer.Validate | api_server.py:575-592 | Rejects exactly the actions outside the eight named ones. An accepted intervention has its action and target ("" when missing), severity defaulting to "danger" and description to "" |
| ApiServer.HandleFrameSpec | api_server.py:619-626 | A frame that is not an object ends the connection. An `intervene` message is queued with its payload ({} when missing), and anything else is ignored |
| ApiServer.QueuedBy | api_server.py:616-626 | A run of frames queues at most one intervention per frame |
| ApiServer.NonJsonIgnored | api_server.py:625-626 | Frames that are not JSON neither queue anything nor end the loop |
| ApiServer.Trunc | api_server.py:142 | `int(x)` truncates toward zero |
| ApiServer.TargetedShock | api_server.py:136-197 | Only resources, GDP and welfare change, and only the resources each action names. A crisis cuts GDP by its factor but never below 5, and leaves welfare between 0 and the larger of 10 and the old value (50 when missing). The tech boom adds a quarter to GDP and leaves welfare between the old value (capped at 100) and 100. Any other action changes nothing |
| ApiServer.NationalShock | api_server.py:211-233 | Only GDP and welfare change. The GDP crash takes 30% of GDP, but never below 5, and leaves welfare at least 10. The stimulus adds 15% to GDP and leaves welfare at most 100 |
| ApiServer.ApplyInterventionSpec | api_server.py:116-239 | No region is added or removed, and the log entry carries the tick |
| ApiServer.TargetedShape | api_server.py:136-209 | On a known target only that region changes, one recovery message is added, and the impact names the target. Without one nothing changes and no message is added |
| ApiServer.CrashShape | api_server.py:211-226 | Every region is hit by the crash, one recovery message per region in dict order, and an impact for every region |
| ApiServer.StimulusShape | api_server.py:228-235 | Every region gets the stimulus, no message is added and the entry is a success |
| ApiServer.NationalWithTarget | api_server.py:136-211 | A national action naming a known target changes no region, yet adds one recovery message and no impact |
| ApiServer.UnknownActionInert | api_server.py:124-136 | An unlisted action changes no region. It adds one message exactly when it names a known target, and logs the given severity |
| ApiServer.PayloadOf | api_server.py:419-428 | A region's payload: its state name or the code, with its GDP and trust |
| ApiServer.PayloadItems | api_server.py:419-428 | One payload item per state, in state order |
| ApiServer.Ranking | api_server.py:445 | A reordering of the payload items, sorted by GDP highest first. Items of equal GDP keep their payload order (`Common.SortDescStable`) |
| ApiServer.Extremes | api_server.py:446-447 | Highest and lowest are absent exactly when there are no regions. Otherwise they are payload items, and no GDP is above the highest or below the lowest |
| ApiServer.RecentLogs | api_server.py:465-467 | The first n trades, and the last n governor messages and climate events (10/10/15 in a tick frame, 20 each in `/api/state` at 517-519) |
| ApiServer.SimState.constructor | api_server.py:56-67 | Tick 0, empty logs and queue |
| ApiServer.SimState.AddTrade | api_server.py:69-72 | The trade log becomes `PushNewest` of the old one, and nothing else changes |
| ApiServer.SimState.AddGovernorMsg | api_server.py:74-77 | The governor log keeps its last 50 with the message last, and nothing else changes |
| ApiServer.SimState.AddClimateEvent | api_server.py:79-82 | The climate log keeps its last 30 with the event last, and nothing else changes |
| ApiServer.SimState.QueueIntervention | api_server.py:84-86 | The intervention is appended, and nothing else changes |
| ApiServer.SimState.PopInterventions | api_server.py:88-92 | Returns the whole queue in FIFO order and leaves it empty |
| ApiServer.SimState.Intervene | api_server.py:572-595 | An invalid action gets status 400 and queues nothing. A valid one queues the validated intervention and reports the new queue size |
| ApiServer.SimState.ServeFrames | api_server.py:616-626 | The receive loop queues exactly `QueuedBy` of the frames and acknowledges each |
| ApiServer.SimState.Record | api_server.py:209-238 | The messages go to the governor log one by one and the entry to the climate log |
| ApiServer.SimState.ApplyIntervention | api_server.py:116-239 | The regions and entry are those of `ApplyInterventionSpec`. Its messages are logged in order and exactly one climate-log entry is added |
| Common.LastItems | csv_data_loader.py:150-156 | `s[-k:]` for k > 0 is the last min(k, n) items |
| Common.TakeDropSplit | api_server.py:72 | For every integer k, `s[:k] + s[k:]` is `s` again, and neither slice is longer than `s`. The log caps at api_server.py:72-82 and the trade limits at csv_data_loader.py:150-156 use these slices |
| Common.SortDesc | api_server.py:445 | The descending sort returns a permutation of its input |
| Common.SortDescSorted | api_server.py:445 | Its result is sorted highest first |
| Common.SortDescStable | api_server.py:445 | The sort is stable: for every key value, the elements with that key appear in their input order, as with Python's `sorted(..., reverse=True)` (also the tally order at csv_data_loader.py:193) |
| Common.UpperIdempotent | csv_data_loader.py:45 | Upper-casing twice is upper-casing once. No lower-case ASCII letter remains, and every other character is kept |
| CsvData.SortedCodesFacts | csv_data_loader.py:125 | `sorted(STATE_CODES.values())` is the ten codes in ascending order, the same set as the configuration's state codes |
| CsvData.StateCodeOf | csv_data_loader.py:45 | A table name maps to its code. Any other name gives its first two characters uppercased (fewer for a shorter name) |
| CsvData.StateCodeRoundTrip | csv_data_loader.py:12-17 | Every state's display name maps back to its own code |
| CsvData.Build | csv_data_loader.py:75 | The store keeps every parsed row in order |
| CsvData.BuildLast | csv_data_loader.py:74-107 | Loading one more row is one more `Ingest` step on the index built so far |
| CsvData.ParseAll | csv_data_loader.py:41-110 | A malformed line, with a bad number or a missing column, is skipped, so there are at most as many rows as lines. A short line aborts the load in the source, and this is not modelled (see Left out) |
| CsvData.BuildAllTrades | csv_data_loader.py:86-96 | One trade record per row, in order |
| CsvData.BuildTrades | csv_data_loader.py:96-98 | The executed trades are exactly the in-order sub-sequence of all trades whose executed flag is 1 |
| CsvData.BuildClimate | csv_data_loader.py:100-107 | The climate events are the rows whose event is not "None", "none" or "", in order. Each becomes a climate record with that row's tick, state, event and intensity (`ClimatesOf`), and no recorded event is "None", "none" or "" |
| CsvData.BuildTicks | csv_data_loader.py:76 | The tick set is exactly the rows' ticks |
| CsvData.BuildTableKeys | csv_data_loader.py:76-80 | The GDP and welfare tables have exactly the seen ticks, with an entry for a state exactly when a row for that tick and state was seen |
| CsvData.BuildTableLast | csv_data_loader.py:79-80 | A table cell holds the value of the last row for its tick and state |
| CsvData.BuildLatestOf | csv_data_loader.py:82-84 | The loop builds `LatestOf` of the rows |
| CsvData.LatestFacts | csv_data_loader.py:82-84 | A state has a latest row exactly when it has a row. That row is one of its rows, and no row of the state has a greater tick |
| CsvData.LatestIs | csv_data_loader.py:82-84 | The earliest row with the greatest tick is the latest one: later ties do not replace it |
| CsvData.SetMin | csv_data_loader.py:119 | The least tick of a non-empty set |
| CsvData.SortedTicks | csv_data_loader.py:119 | `sorted(self.ticks)`: every tick once, strictly ascending |
| CsvData.SampleAt | csv_data_loader.py:121-123 | The i-th sampled tick is the tick at position i·(n // limit) |
| CsvData.SampleAscending | csv_data_loader.py:121-123 | Sampling keeps strictly ascending order |
| CsvData.SampleShape | csv_data_loader.py:119-123 | Exactly min(n, limit) ticks, all known, still strictly ascending |
| CsvData.Entry | csv_data_loader.py:128-130 | An entry has the tick and all ten codes, each the table value or 0, scaled |
| CsvData.History | csv_data_loader.py:117-132 | min(#ticks, limit) entries with known, strictly ascending ticks, each the full entry of its tick |
| CsvData.Bump | csv_data_loader.py:192 | `counts[k] += 1` adds at most one key |
| CsvData.BumpLookupSame | csv_data_loader.py:192 | The bumped key's count rises by one, from 0 if absent |
| CsvData.BumpLookupOther | csv_data_loader.py:192 | Other keys keep their counts |
| CsvData.TallyFacts | csv_data_loader.py:190-192 | The tally has distinct keys and its counts sum to the number of events |
| CsvData.TallyCounts | csv_data_loader.py:190-192 | Each name's count is its number of occurrences, and names that never occur are absent |
| CsvData.SumCountsSorted | csv_data_loader.py:193 | Sorting keeps the sum of counts |
| CsvData.ClimateSummaryFacts | csv_data_loader.py:188-193 | The summary is sorted by count, highest first. It reorders the tally of the events' names (`EventNames`, in event order), and its counts sum to the number of climate events |
| CsvData.Store.constructor | csv_data_loader.py:23-110 | The store holds the index of the parsed input rows |
| CsvData.Store.Add | csv_data_loader.py:75-107 | One loop iteration updates every index as `Ingest` |
| CsvData.Store.GetGdpHistory | csv_data_loader.py:117-132 | min(#ticks, limit) entries with strictly ascending known ticks, each with all ten codes defaulting to 0 |
| CsvData.Store.GetWelfareHistory | csv_data_loader.py:134-148 | As for GDP, with welfare times 100 |
| CsvData.Store.GetTradeHistory | csv_data_loader.py:150-152 | The last `limit` executed trades in order (all of them for 0) |
| CsvData.Store.GetAllTrades | csv_data_loader.py:154-156 | The last `limit` trade records in order (all of them for 0) |
| CsvData.Store.GetClimateSummary | csv_data_loader.py:188-193 | Returns the climate summary, sorted highest first, with counts summing to the number of events |
| CsvData.Store.GetStateTradeActivity | csv_data_loader.py:195-208 | The ten codes in sorted order, each with its executed BID count and its count of every other order type as asks. Bids plus asks are the state's executed trades |
| CsvData.CountOrders | csv_data_loader.py:197-203 | The loop counts each state's executed bids, and its other orders as asks |

## Left out

- Floating point: GDP, welfare, prices, quantities and intensities are Dafny reals. Float rounding is not modelled, nor is `round(x, n)` (the CSV columns, welfare history values, the ranking list at api_server.py:450).
- CsvData.Store.GetWelfareHistory: does not apply `round(..., 1)` to the scaled welfare values.
- CsvData.Store.GetGdpHistory, CsvData.Store.GetWelfareHistory, CsvData.History and CsvData.SampleShape: require `limit > 0`. The source divides by zero for limit 0 once there are ticks, and takes a reversed stride for a negative limit. Its callers pass 50.
- WorldSteps.Migrants: for a population of 0 or less it gives 0, where `int(pop * 0.02)` gives a value of 0 or less. No one migrates in either case.
- Parliament.Passes: the 0.6 share test is computed on reals, not on floats (`PassesIsThreeFifths` states it as 5·yes >= 3·total).
- TreatyManager.Manager.CalculateTrustAdjustments, TreatyManager.TrustSpec, TreatyManager.AdjustOne, TreatyManager.ApplyBreaches, TreatyManager.Manager.PenalizeBreaches and TreatyManager.Manager.AdjustForResult: require every breacher to be named as a party of its result. The source raises KeyError otherwise. Enforcement always produces such results (`EnforceAllBlamesParties`).
- WorldEnv.World.ProduceConsume and WorldSteps.ProduceAll: require all ten states to be loaded. The source raises KeyError on a missing one.
- ClimateEngine.SelectEvent: the weighted draw (`random.choices`) is an index chosen by the caller over the available events, and the weights are not modelled. The probability roll (`random.random() < 0.05`) is a boolean input.
- ClimateEngine.Target and Duration: their tables are in the bodies. The contracts only state that targets are state codes and durations exceed 1.
- ClimateEngine.AffectedRegions: the contract only says that affected regions are state codes. The exact relation is in `ExpiryClearsTarget` and the body.
- Firestore: `initialize` is the World constructor's parameters. The impact report of a triggered event is always absent. `_step_firebase_sync`, `deactivate_climate_event` and `log_assembly_meeting` are not part of this model.
- LLM governors and FinOps agents: proposals, votes and state reports are inputs. `_step_governor_decisions`, `_governor_negotiate` and `_step_finops_analysis` are not modelled, nor are the transcript and speeches of an assembly.
- World tick: the eleven steps of `tick` are separate methods, and `tick_events`/`tick_log` are not assembled. The counter and schedule are in `AdvanceTick`. `_step_apply_policies` and `_step_rewards` (floats) are not modelled, nor is `_step_climate` (Firestore glue around the modelled `ClimateEngine.Engine.Tick`) nor `_step_assembly` (LLM).
- Printing, progress messages and `_print_tick_summary`: not modelled.
- Display texts and timestamps of log entries, governor messages and transfers: not modelled.
- Dict iteration order: `ApplyInterventionSpec` takes the order of `regions_data` as a parameter. Dict values that are only read are maps.
- Treaties are values, not objects. The alias between a treaty's `breaches` list and the one in its `to_dict` record is not modelled. Expired treaties are removed by position, which is what removal by identity does.
- JSON: a key holding `null` is not distinguished from a missing key. `.upper()` is modelled on ASCII letters only.
- api_server.py: the run loop, threading lock, broadcast, the Gini and mean statistics (431-442), the routes other than the state and intervention endpoints, the 503 reply before the first snapshot, and the seed data at 260-341 are not modelled.
- CsvData.ParseAll: a line with fewer fields than the header is read by `csv.DictReader` with None in the missing columns. `float(None)` or `None.strip()` then raises TypeError or AttributeError, which the `except (ValueError, KeyError)` at csv_data_loader.py:109 does not catch, so the whole load aborts. The model has no such input: each line is either a parsed record or a malformed one that is skipped.
- ApiServer.HandleFrameSpec: an `intervene` message whose payload is JSON but not an object (a number, a string, a list) cannot be expressed. The source queues it at api_server.py:623, and `apply_intervention` later fails on `intervention.get` at api_server.py:124 in the simulation thread. The model's payload is either an intervention record or missing.
- csv_data_loader.py: file reading and value parsing are abstracted. Input lines are already parsed records, or None for a malformed line. `get_resource_overview`, `get_trade_volume_by_resource` and the `get_store` singleton are not modelled.
- config.py is not modelled as a file: the constants the core reads are copied into `Config`.
