/** The world environment: the tick counter and its schedule, the cached
    region data and the steps that update it in place, and the snapshot the
    API serves. The treaty manager, climate engine and assembly are the
    environment's own sub-systems. */
module WorldEnv {
  import opened Common
  import opened Domain
  import Config
  import opened WorldSteps
  import TreatyManager
  import ClimateEngine
  import Parliament

  /** One region as `get_state_snapshot` reports it. */
  datatype RegionSnapshot = RegionSnapshot(
    resources: map<string, int>, gdpScore: real, welfareScore: real, population: int, trustScore: int)

  datatype Snapshot = Snapshot(
    tick: int,
    regions: map<Code, RegionSnapshot>,
    activeTreaties: TreatyManager.Summary,
    activeClimate: seq<string>,
    passedResolutions: seq<string>)

  /** A region's snapshot entry: missing numbers read as 0, trust as 100. */
  function RegionView(regions: Regions, c: Code): (v: RegionSnapshot)
    ensures c !in regions ==> v == RegionSnapshot(map[], 0.0, 0.0, 0, 100)
    ensures c in regions ==>
              && v.resources == regions[c].resources
              && v.trustScore == regions[c].trustScore.GetOr(100)
              && v.population == regions[c].population.GetOr(0)
              && v.gdpScore == regions[c].gdpScore.GetOr(0.0)
              && v.welfareScore == regions[c].welfareScore.GetOr(0.0)
  {
    if c in regions then
      var r := regions[c];
      RegionSnapshot(r.resources, r.gdpScore.GetOr(0.0), r.welfareScore.GetOr(0.0), r.population.GetOr(0), r.trustScore.GetOr(100))
    else RegionSnapshot(map[], 0.0, 0.0, 0, 100)
  }

  function ResolutionNames(rs: seq<Parliament.Resolution>): (names: seq<string>)
    ensures |names| == |rs|
    ensures forall i :: 0 <= i < |rs| ==> names[i] == rs[i].name
  {
    seq(|rs|, i requires 0 <= i < |rs| => rs[i].name)
  }

  class World {
    var currentTick: int
    var useLlm: bool
    var regions: Regions
    const treaties: TreatyManager.Manager
    const climate: ClimateEngine.Engine
    const parliament: Parliament.Assembly

    /** `__init__` followed by `initialize`: the region data and the saved
        tick come from the database (no saved tick means 0). */
    constructor (useLlm: bool, loaded: Regions, savedTick: Option<int>)
      ensures this.useLlm == useLlm && regions == loaded && currentTick == savedTick.GetOr(0)
      ensures fresh(treaties) && fresh(climate) && fresh(parliament)
      ensures treaties.Valid() && treaties.activeTreaties == [] && treaties.expiredTreaties == []
      ensures climate.Valid() && climate.State() == ClimateEngine.ClimateState(-Config.ClimateMinInterval, [], map[])
      ensures parliament.Valid() && parliament.passedResolutions == []
    {
      this.useLlm := useLlm;
      currentTick := 0;
      treaties := new TreatyManager.Manager();
      climate := new ClimateEngine.Engine();
      parliament := new Parliament.Assembly();
      regions := loaded;
      currentTick := savedTick.GetOr(0);
    }

    /** The counter and the schedule of `tick`: one tick per call, and the
        assembly is due on every FEDERAL_ASSEMBLY_INTERVAL-th tick when the
        LLM is enabled. */
    method AdvanceTick() returns (assemblyDue: bool)
      modifies this
      ensures currentTick == old(currentTick) + 1
      ensures assemblyDue == AssemblyDue(currentTick, useLlm)
      ensures regions == old(regions) && useLlm == old(useLlm)
    {
      currentTick := currentTick + 1;
      assemblyDue := currentTick % Config.FederalAssemblyInterval == 0 && useLlm;
    }

    /** `_step_produce_consume`: every state's resources become the four kinds
        after generation and consumption, none negative; the same books are
        returned as the tick's resource updates. */
    method ProduceConsume() returns (updates: map<Code, map<string, int>>)
      requires forall c :: c in Config.StateCodes ==> c in regions
      modifies this
      ensures regions == ProduceAll(old(regions))
      ensures updates.Keys == set c | c in Config.StateCodes
      ensures forall c :: c in updates ==> updates[c] == regions[c].resources
      ensures currentTick == old(currentTick) && useLlm == old(useLlm)
    {
      Config.StateCodesDistinct();
      var r;
      r, updates := ProduceLoop(regions, Config.StateCodes);
      assert r == ProduceAll(regions);
      regions := r;
    }

    /** `_step_enforce_treaties`: nothing happens without active treaties;
        otherwise the treaties are enforced on the live holdings and every
        party's trust moves by its adjustment, clamped to [0, 100]. */
    method EnforceTreatiesStep() returns (results: seq<TreatyManager.EnforcementResult>)
      modifies this, treaties
      ensures old(treaties.activeTreaties) == [] ==>
                results == [] && regions == old(regions) && treaties.activeTreaties == []
                && treaties.expiredTreaties == old(treaties.expiredTreaties)
      ensures old(treaties.activeTreaties) != [] ==>
                var e := TreatyManager.EnforceAll(old(treaties.activeTreaties), old(regions), true, currentTick);
                && results == e.0
                && TreatyManager.BreachersNamed(e.0)
                && regions == WithTrust(e.2, TreatyManager.TrustSpec(e.0))
                && treaties.activeTreaties == TreatyManager.KeptOf(e.1)
                && treaties.expiredTreaties == old(treaties.expiredTreaties) + TreatyManager.MovedOf(e.1)
      ensures forall c :: c in regions && c in TreatyManager.PartiesOf(results) ==>
                regions[c].trustScore.Some? && 0 <= regions[c].trustScore.value <= 100
      ensures treaties.treatyCounter == old(treaties.treatyCounter)
      ensures old(treaties.Valid()) ==> treaties.Valid()
      ensures old(treaties.WithinLimits()) ==> treaties.WithinLimits()
      ensures currentTick == old(currentTick) && useLlm == old(useLlm)
    {
      if treaties.activeTreaties == [] {
        results := [];
        return;
      }
      ghost var ts := treaties.activeTreaties;
      ghost var before := regions;
      var after;
      results, after := treaties.EnforceTreaties(currentTick, regions, true);
      TreatyManager.EnforceAllBlamesParties(ts, before, true, currentTick);
      var adj := treaties.CalculateTrustAdjustments(results);
      var clamped := ClampTrustLoop(after, adj);
      regions := clamped;
    }

    /** `_update_region_resources_local`. */
    method UpdateRegionResourcesLocal(code: Code, updates: Dict<string, int>)
      modifies this
      ensures regions == ApplyUpdates(old(regions), code, updates)
      ensures currentTick == old(currentTick) && useLlm == old(useLlm)
    {
      if code in regions {
        var r := regions;
        var i := 0;
        while i < |updates|
          invariant 0 <= i <= |updates|
          invariant r == ApplyUpdates(regions, code, updates[..i])
        {
          assert updates[..i + 1][..i] == updates[..i];
          r := SetResource(r, code, updates[i].0, updates[i].1);
          i := i + 1;
        }
        assert updates[..i] == updates;
        regions := r;
      }
    }

    /** `_execute_direct_trade`. */
    method ExecuteDirectTrade(fromCode: Code, toCode: Code, offering: Dict<string, int>, requesting: Dict<string, int>)
      modifies this
      ensures regions == DirectTrade(old(regions), fromCode, toCode, offering, requesting)
      ensures currentTick == old(currentTick) && useLlm == old(useLlm)
    {
      var r := DirectTradeOn(regions, fromCode, toCode, offering, requesting);
      regions := r;
    }

    /** `_step_trade_matching`: with every state known, the national total of
        every resource is unchanged. */
    method StepTradeMatching(reports: map<Code, StateReport>) returns (trades: seq<AutoTrade>)
      modifies this
      ensures regions == MatchCodes(old(regions), reports, Config.StateCodes).0
      ensures trades == MatchCodes(old(regions), reports, Config.StateCodes).1
      ensures (forall c :: c in Config.StateCodes ==> c in old(regions)) ==>
                forall res :: TotalOf(regions, res) == TotalOf(old(regions), res)
      ensures currentTick == old(currentTick) && useLlm == old(useLlm)
    {
      var r;
      r, trades := MatchLoop(regions, reports, Config.StateCodes);
      if forall c :: c in Config.StateCodes ==> c in regions {
        forall res ensures TotalOf(r, res) == TotalOf(regions, res) {
          MatchCodesKeepsTotals(regions, reports, Config.StateCodes, res);
        }
      }
      regions := r;
    }

    /** `_step_migration`: the national population is unchanged. */
    method StepMigration() returns (migrations: seq<Migration>)
      modifies this
      ensures regions == MigrateCodes(old(regions), Config.StateCodes).0
      ensures migrations == MigrateCodes(old(regions), Config.StateCodes).1
      ensures TotalPopulation(regions) == TotalPopulation(old(regions))
      ensures currentTick == old(currentTick) && useLlm == old(useLlm)
    {
      var r;
      r, migrations := MigrateLoop(regions, Config.StateCodes);
      MigrationKeepsPopulation(regions, Config.StateCodes);
      regions := r;
    }

    /** `get_state_snapshot`: exactly the ten states, with defaults for the
        unknown ones, and the sub-systems' summaries. */
    function GetStateSnapshot(): (s: Snapshot)
      reads this, treaties, climate, parliament
      ensures s.tick == currentTick
      ensures s.regions.Keys == set c | c in Config.StateCodes
      ensures forall c :: c in s.regions ==> s.regions[c] == RegionView(regions, c)
      ensures s.activeTreaties == treaties.GetSummary()
      ensures s.activeTreaties.totalCreated == treaties.treatyCounter
      ensures s.activeClimate == climate.order
      ensures |s.passedResolutions| == |parliament.passedResolutions|
      ensures forall i :: 0 <= i < |s.passedResolutions| ==> s.passedResolutions[i] == parliament.passedResolutions[i].name
    {
      Snapshot(currentTick,
               map c | c in Config.StateCodes :: RegionView(regions, c),
               treaties.GetSummary(),
               climate.order,
               ResolutionNames(parliament.passedResolutions))
    }
  }

  // ---------------------------------------------------------------------------
  // The loops of the steps, on values
  // ---------------------------------------------------------------------------

  /** The per-resource loop of `_step_produce_consume` for one region. */
  method NewResourcesLoop(region: Region) returns (m: map<string, int>)
    ensures m == NewResources(region)
  {
    m := ProduceKinds(region, Config.ResourceKinds);
  }

  lemma ProducedKindsStep(region: Region, kinds: seq<string>, i: nat)
    requires i < |kinds|
    ensures (map k | k in kinds[..i + 1] :: Produced(region, k))
         == (map k | k in kinds[..i] :: Produced(region, k))[kinds[i] := Produced(region, kinds[i])]
  {
    assert kinds[..i + 1] == kinds[..i] + [kinds[i]];
  }

  /** The loop of `_step_produce_consume` over the resource kinds of one
      state. */
  method ProduceKinds(region: Region, kinds: seq<string>) returns (m: map<string, int>)
    ensures m == map k | k in kinds :: Produced(region, k)
  {
    m := map[];
    var i := 0;
    while i < |kinds|
      invariant 0 <= i <= |kinds|
      invariant m == map k | k in kinds[..i] :: Produced(region, k)
    {
      var res := kinds[i];
      var current := Get(region.resources, res);
      var gen := Get(region.generationRates, res);
      var con := Get(region.consumptionRates, res);
      ProducedKindsStep(region, kinds, i);
      m := m[res := Max(0, current + gen - con)];
      i := i + 1;
    }
    assert kinds[..i] == kinds;
  }

  /** The regions with the states in `codes` produced and consumed. */
  function ProducedOver(regions: Regions, codes: seq<Code>): Regions {
    map c | c in regions :: if c in codes then regions[c].(resources := NewResources(regions[c])) else regions[c]
  }

  lemma ProducedOverStep(regions: Regions, codes: seq<Code>, x: Code)
    requires x in regions
    ensures ProducedOver(regions, codes + [x])
         == ProducedOver(regions, codes)[x := regions[x].(resources := NewResources(regions[x]))]
  {
  }

  /** The per-state loop of `_step_produce_consume`, over distinct known codes. */
  method ProduceLoop(regions: Regions, codes: seq<Code>) returns (r: Regions, updates: map<Code, map<string, int>>)
    requires forall i :: 0 <= i < |codes| ==> codes[i] in regions
    requires Distinct(codes)
    ensures r == ProducedOver(regions, codes)
    ensures updates == map c | c in codes :: NewResources(regions[c])
  {
    r := regions;
    updates := map[];
    var i := 0;
    while i < |codes|
      invariant 0 <= i <= |codes|
      invariant r == ProducedOver(regions, codes[..i])
      invariant updates == map c | c in codes[..i] :: NewResources(regions[c])
    {
      var code := codes[i];
      assert codes[..i + 1] == codes[..i] + [code];
      assert code !in codes[..i];
      assert r[code] == regions[code];
      var newResources := NewResourcesLoop(r[code]);
      ProducedOverStep(regions, codes[..i], code);
      r := r[code := r[code].(resources := newResources)];
      updates := updates[code := newResources];
      i := i + 1;
    }
    assert codes[..i] == codes;
  }

  lemma WithTrustStep(regions: Regions, adj: map<Code, int>, todo: set<Code>, code: Code)
    requires code in todo && code in adj
    ensures WithTrust(regions, adj - (todo - {code}))
         == if code in regions
            then WithTrust(regions, adj - todo)[code := regions[code].(trustScore := Some(ClampTrust(regions[code].trustScore.GetOr(100), adj[code])))]
            else WithTrust(regions, adj - todo)
  {
  }

  /** The trust loop of `_step_enforce_treaties`, over the adjusted codes in
      any order (each code is visited once and the visits are independent). */
  method ClampTrustLoop(regions: Regions, adj: map<Code, int>) returns (r: Regions)
    ensures r == WithTrust(regions, adj)
  {
    r := regions;
    var todo := adj.Keys;
    assert adj - todo == map[];
    while todo != {}
      invariant todo <= adj.Keys
      invariant r == WithTrust(regions, adj - todo)
      invariant forall c :: c in todo && c in regions ==> r[c] == regions[c]
      decreases |todo|
    {
      var code :| code in todo;
      WithTrustStep(regions, adj, todo, code);
      if code in r {
        var currentTrust := r[code].trustScore.GetOr(100);
        r := r[code := r[code].(trustScore := Some(ClampTrust(currentTrust, adj[code])))];
      }
      todo := todo - {code};
    }
    assert adj - todo == adj;
  }

  /** One leg of `_execute_direct_trade`: the payer gives what was asked, but
      no more than it holds. */
  method TransferLeg(b: Books, shared: bool, res: string, amount: int, fromPays: bool) returns (b': Books)
    ensures b' == Leg(b, shared, res, amount, fromPays)
  {
    var fromBook, toBook := b.fromBook, b.toBook;
    if shared {
      var have := Get(fromBook, res);
      var amt := Min(amount, have);
      fromBook := fromBook[res := Max(0, have - amt)];
      fromBook := fromBook[res := Get(fromBook, res) + amt];
      toBook := fromBook;
    } else if fromPays {
      var amt := Min(amount, Get(fromBook, res));
      fromBook := fromBook[res := Max(0, Get(fromBook, res) - amt)];
      toBook := toBook[res := Get(toBook, res) + amt];
    } else {
      var amt := Min(amount, Get(toBook, res));
      toBook := toBook[res := Max(0, Get(toBook, res) - amt)];
      fromBook := fromBook[res := Get(fromBook, res) + amt];
    }
    b' := Books(fromBook, toBook);
  }

  /** One side of `_execute_direct_trade`: the legs of `offering` (the
      from-region pays) or of `requesting` (the to-region pays). */
  method TransferLegs(b: Books, shared: bool, legs: Dict<string, int>, fromPays: bool) returns (b': Books)
    ensures b' == Legs(b, shared, legs, fromPays)
  {
    b' := b;
    var i := 0;
    while i < |legs|
      invariant 0 <= i <= |legs|
      invariant b' == Legs(b, shared, legs[..i], fromPays)
    {
      assert legs[..i + 1][..i] == legs[..i];
      b' := TransferLeg(b', shared, legs[i].0, legs[i].1, fromPays);
      i := i + 1;
    }
    assert legs[..i] == legs;
  }

  /** `_execute_direct_trade` on a value of the region data. */
  method DirectTradeOn(regions: Regions, fromCode: Code, toCode: Code, offering: Dict<string, int>, requesting: Dict<string, int>)
    returns (r: Regions)
    ensures r == DirectTrade(regions, fromCode, toCode, offering, requesting)
  {
    var shared := fromCode == toCode && fromCode in regions;
    var b := Books(BookOf(regions, fromCode), BookOf(regions, toCode));
    b := TransferLegs(b, shared, offering, true);
    b := TransferLegs(b, shared, requesting, false);
    r := regions;
    if fromCode in r {
      r := r[fromCode := r[fromCode].(resources := b.fromBook)];
    }
    if toCode in r {
      r := r[toCode := r[toCode].(resources := b.toBook)];
    }
  }

  /** The partner search of `_step_trade_matching`, stopping at the first
      state that can supply; also returns what that state offers. */
  method FindSupplier(codes: seq<Code>, reports: map<Code, StateReport>, code: Code, res: string, amt: int)
    returns (other: Option<Code>, available: int)
    ensures other == FirstSupplier(codes, reports, code, res, amt)
    ensures other.Some? ==> available == OfferedBy(reports, other.value, res).value
  {
    other := None;
    available := 0;
    var i := 0;
    while i < |codes|
      invariant 0 <= i <= |codes|
      invariant FirstSupplier(codes, reports, code, res, amt) == FirstSupplier(codes[i..], reports, code, res, amt)
    {
      var candidate := codes[i];
      assert codes[i..][0] == candidate && codes[i..][1..] == codes[i + 1..];
      if candidate != code && candidate in reports {
        var surplus := Lookup(reports[candidate].surpluses, res);
        if surplus.Some? {
          var offered := surplus.value.amountAvailable.GetOr(0);
          if offered >= amt {
            other := Some(candidate);
            available := offered;
            return;
          }
        }
      }
      i := i + 1;
    }
  }

  /** The recommendation loop of `_step_trade_matching` for one state. */
  method MatchRecsLoop(regions: Regions, reports: map<Code, StateReport>, code: Code, recs: seq<TradeRecommendation>)
    returns (r: Regions, trades: seq<AutoTrade>)
    ensures r == MatchRecs(regions, reports, code, recs).0
    ensures trades == MatchRecs(regions, reports, code, recs).1
  {
    r := regions;
    trades := [];
    var i := 0;
    while i < |recs|
      invariant 0 <= i <= |recs|
      invariant r == MatchRecs(regions, reports, code, recs[..i]).0
      invariant trades == MatchRecs(regions, reports, code, recs[..i]).1
    {
      assert recs[..i + 1][..i] == recs[..i];
      var rec := recs[i];
      ghost var step := MatchOne(r, reports, code, rec);
      if rec.action == Some("TRADE") {
        var offerRes, requestRes := rec.offerResource.GetOr(""), rec.requestResource.GetOr("");
        var offerAmt, requestAmt := rec.offerAmount.GetOr(0), rec.requestAmount.GetOr(0);
        if offerRes != "" && requestRes != "" && offerAmt > 0 {
          var other, available := FindSupplier(Config.StateCodes, reports, code, requestRes, requestAmt);
          if other.Some? {
            var actual := Min(requestAmt, available);
            r := DirectTradeOn(r, code, other.value, [(offerRes, offerAmt)], [(requestRes, actual)]);
            trades := trades + [AutoTrade(code, other.value, (offerRes, offerAmt), (requestRes, actual))];
          }
        }
      }
      assert r == step.0 && trades == MatchRecs(regions, reports, code, recs[..i]).1 + step.1;
      i := i + 1;
    }
    assert recs[..i] == recs;
  }

  /** The state loop of `_step_trade_matching`. */
  method MatchLoop(regions: Regions, reports: map<Code, StateReport>, codes: seq<Code>)
    returns (r: Regions, trades: seq<AutoTrade>)
    ensures r == MatchCodes(regions, reports, codes).0
    ensures trades == MatchCodes(regions, reports, codes).1
  {
    r := regions;
    trades := [];
    var i := 0;
    while i < |codes|
      invariant 0 <= i <= |codes|
      invariant r == MatchCodes(regions, reports, codes[..i]).0
      invariant trades == MatchCodes(regions, reports, codes[..i]).1
    {
      var code := codes[i];
      assert codes[..i + 1][..i] == codes[..i];
      var recs := if code in reports then reports[code].tradeRecommendations else [];
      var more;
      r, more := MatchRecsLoop(r, reports, code, recs);
      trades := trades + more;
      i := i + 1;
    }
    assert codes[..i] == codes;
  }

  /** The destination search of `_step_migration`. */
  method FindDestination(regions: Regions, code: Code, codes: seq<Code>) returns (best: Option<Code>, bestWelfare: real)
    ensures best == BestFrom(regions, code, codes).0
    ensures bestWelfare == BestFrom(regions, code, codes).1
  {
    best := None;
    bestWelfare := 0.0;
    var i := 0;
    while i < |codes|
      invariant 0 <= i <= |codes|
      invariant best == BestFrom(regions, code, codes[..i]).0
      invariant bestWelfare == BestFrom(regions, code, codes[..i]).1
    {
      var dest := codes[i];
      assert codes[..i + 1][..i] == codes[..i];
      if dest != code {
        var destWelfare := if dest in regions then regions[dest].welfareScore.GetOr(0.0) else 0.0;
        if destWelfare > bestWelfare {
          bestWelfare := destWelfare;
          best := Some(dest);
        }
      }
      i := i + 1;
    }
    assert codes[..i] == codes;
  }

  /** The migration check of one state, as `_step_migration` runs it. */
  method MigrateStep(regions: Regions, code: Code) returns (r: Regions, moved: seq<Migration>)
    ensures r == MigrateOne(regions, code).0
    ensures moved == MigrateOne(regions, code).1
  {
    r, moved := regions, [];
    var welfare := if code in r then r[code].welfareScore.GetOr(50.0) else 50.0;
    assert welfare == SourceWelfare(regions, code);
    if welfare < Config.WelfareMigrationThreshold {
      var dest, bestWelfare := FindDestination(r, code, Config.StateCodes);
      if dest.Some? && bestWelfare > welfare {
        var pop := if code in r then r[code].population.GetOr(0) else 0;
        assert pop == PopulationOf(regions, code);
        var migrants := Migrants(pop);
        if migrants > 0 {
          assert code in r;
          r := r[code := r[code].(population := Some(pop - migrants))];
          var destPop := r[dest.value].population.GetOr(0);
          r := r[dest.value := r[dest.value].(population := Some(destPop + migrants))];
          moved := [Migration(code, dest.value, migrants)];
        }
      }
    }
  }

  /** The state loop of `_step_migration`. */
  method MigrateLoop(regions: Regions, codes: seq<Code>) returns (r: Regions, migrations: seq<Migration>)
    ensures r == MigrateCodes(regions, codes).0
    ensures migrations == MigrateCodes(regions, codes).1
  {
    r := regions;
    migrations := [];
    var i := 0;
    while i < |codes|
      invariant 0 <= i <= |codes|
      invariant r == MigrateCodes(regions, codes[..i]).0
      invariant migrations == MigrateCodes(regions, codes[..i]).1
    {
      assert codes[..i + 1][..i] == codes[..i];
      var more;
      r, more := MigrateStep(r, codes[i]);
      migrations := migrations + more;
      i := i + 1;
    }
    assert codes[..i] == codes;
  }
}
