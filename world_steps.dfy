/** The per-tick steps of the world environment, as functions on the cached
    region data: production and consumption, the trust clamp after treaty
    enforcement, local resource updates, direct trades, automatic trade
    matching and migration. The class that runs them in place is in module
    WorldEnv. */
module WorldSteps {
  import opened Common
  import opened Domain
  import Config

  /** `d.get(k, 0)` on a resource book. */
  function Get(m: map<string, int>, k: string): int {
    if k in m then m[k] else 0
  }

  /** The resource book of a region, or the empty one for an unknown code. */
  function BookOf(regions: Regions, code: Code): map<string, int> {
    if code in regions then regions[code].resources else map[]
  }

  lemma BookOfIsResourceOf(regions: Regions, code: Code, res: string)
    ensures Get(BookOf(regions, code), res) == ResourceOf(regions, code, res)
  {
  }

  /** How many ticks separate two sessions of the Federal Assembly. */
  predicate AssemblyDue(tick: int, useLlm: bool) {
    tick % Config.FederalAssemblyInterval == 0 && useLlm
  }

  /** Two sessions are at least FEDERAL_ASSEMBLY_INTERVAL ticks apart ... */
  lemma AssemblySpacing(t1: int, t2: int)
    requires t1 < t2 && AssemblyDue(t1, true) && AssemblyDue(t2, true)
    ensures t2 - t1 >= Config.FederalAssemblyInterval
  {
    var q1, q2 := t1 / 50, t2 / 50;
    assert t1 == 50 * q1 && t2 == 50 * q2;
    assert q1 < q2;
    assert t2 - t1 == 50 * (q2 - q1);
  }

  /** ... and with the LLM enabled every run of that many ticks holds one. */
  lemma AssemblyInEveryWindow(t: int)
    ensures var k := (Config.FederalAssemblyInterval - t % Config.FederalAssemblyInterval) % Config.FederalAssemblyInterval;
      0 <= k < Config.FederalAssemblyInterval && AssemblyDue(t + k, true)
  {
    var r := t % 50;
    var k := (50 - r) % 50;
    assert t == 50 * (t / 50) + r;
    if r == 0 {
      assert k == 0;
    } else {
      assert k == 50 - r;
      assert t + k == 50 * (t / 50 + 1);
    }
  }

  // ---------------------------------------------------------------------------
  // Production and consumption
  // ---------------------------------------------------------------------------

  /** One resource after a tick of generation and consumption. */
  function Produced(r: Region, res: string): (v: int)
    ensures v >= 0
    ensures var net := Get(r.resources, res) + Get(r.generationRates, res) - Get(r.consumptionRates, res);
      (net >= 0 ==> v == net) && (net < 0 ==> v == 0)
  {
    Max(0, Get(r.resources, res) + Get(r.generationRates, res) - Get(r.consumptionRates, res))
  }

  /** The new resource book of `_step_produce_consume`: exactly the four
      resource kinds, none negative. */
  function NewResources(r: Region): (m: map<string, int>)
    ensures forall k :: k in m <==> k in Config.ResourceKinds
    ensures forall k :: k in m ==> m[k] == Produced(r, k) && m[k] >= 0
  {
    map k | k in Config.ResourceKinds :: Produced(r, k)
  }

  /** The regions after `_step_produce_consume`, which needs every state to
      be present (it writes `regions_data[code]` directly). */
  function ProduceAll(regions: Regions): (r: Regions)
    requires forall c :: c in Config.StateCodes ==> c in regions
    ensures r.Keys == regions.Keys
    ensures forall c :: c in Config.StateCodes ==> r[c] == regions[c].(resources := NewResources(regions[c]))
    ensures forall c :: c in regions && c !in Config.StateCodes ==> r[c] == regions[c]
  {
    map c | c in regions :: if c in Config.StateCodes then regions[c].(resources := NewResources(regions[c])) else regions[c]
  }

  // ---------------------------------------------------------------------------
  // Trust after treaty enforcement
  // ---------------------------------------------------------------------------

  /** `max(0, min(100, current + adj))`. */
  function ClampTrust(current: int, adj: int): (t: int)
    ensures 0 <= t <= 100
    ensures 0 <= current + adj <= 100 ==> t == current + adj
    ensures current + adj < 0 ==> t == 0
    ensures current + adj > 100 ==> t == 100
  {
    Max(0, Min(100, current + adj))
  }

  /** The trust loop of `_step_enforce_treaties`: each adjusted, known region
      gets its clamped trust (a missing score reads as 100); nothing else
      changes. */
  function WithTrust(regions: Regions, adj: map<Code, int>): (r: Regions)
    ensures r.Keys == regions.Keys
    ensures forall c :: c in r && c in adj ==>
              && r[c].trustScore.Some? && 0 <= r[c].trustScore.value <= 100
              && r[c].trustScore.value == ClampTrust(regions[c].trustScore.GetOr(100), adj[c])
              && r[c].(trustScore := regions[c].trustScore) == regions[c]
    ensures forall c :: c in r && c !in adj ==> r[c] == regions[c]
  {
    map c | c in regions :: if c in adj
      then regions[c].(trustScore := Some(ClampTrust(regions[c].trustScore.GetOr(100), adj[c])))
      else regions[c]
  }

  // ---------------------------------------------------------------------------
  // Local resource updates
  // ---------------------------------------------------------------------------

  /** `_update_region_resources_local`: each listed value is written in turn. */
  function ApplyUpdates(regions: Regions, code: Code, updates: Dict<string, int>): (r: Regions)
    ensures r.Keys == regions.Keys
    ensures forall c :: c in regions && c != code ==> r[c] == regions[c]
    ensures code !in regions ==> r == regions
  {
    if updates == [] then regions
    else
      var last := updates[|updates| - 1];
      SetResource(ApplyUpdates(regions, code, updates[..|updates| - 1]), code, last.0, last.1)
  }

  lemma LookupDropLast<V>(d: Dict<string, V>, k: string)
    requires DistinctKeys(d) && d != [] && d[|d| - 1].0 != k
    ensures Lookup(d, k) == Lookup(d[..|d| - 1], k)
  {
    var init := d[..|d| - 1];
    var r := Lookup(d, k);
    if r.Some? {
      var i :| 0 <= i < |d| && d[i] == (k, r.value);
      LookupAt(d, i);
      assert init[i] == d[i];
      LookupAt(init, i);
    } else {
      assert forall i :: 0 <= i < |init| ==> init[i] == d[i];
    }
  }

  /** A known region ends with exactly the listed values for the listed
      resources and its old holdings for the rest; no other field and no
      other region changes. */
  lemma {:induction false} UpdatesEffect(regions: Regions, code: Code, updates: Dict<string, int>)
    requires DistinctKeys(updates) && code in regions
    ensures var r := ApplyUpdates(regions, code, updates);
      && r[code] == regions[code].(resources := r[code].resources)
      && forall k ::
           (Lookup(updates, k).Some? ==> k in r[code].resources && r[code].resources[k] == Lookup(updates, k).value)
           && (Lookup(updates, k).None? ==>
                 && (k in r[code].resources <==> k in regions[code].resources)
                 && (k in regions[code].resources ==> r[code].resources[k] == regions[code].resources[k]))
  {
    if updates != [] {
      var init := updates[..|updates| - 1];
      var last := updates[|updates| - 1];
      assert DistinctKeys(init);
      UpdatesEffect(regions, code, init);
      LookupAt(updates, |updates| - 1);
      forall k | k != last.0 ensures Lookup(updates, k) == Lookup(init, k) {
        LookupDropLast(updates, k);
      }
    }
  }

  // ---------------------------------------------------------------------------
  // Direct trades
  // ---------------------------------------------------------------------------

  /** The two resource books `_execute_direct_trade` works on: the regions'
      own dicts when they exist, fresh empty ones otherwise. When both sides
      name the same known region they are one dict, and `shared` is set. */
  datatype Books = Books(fromBook: map<string, int>, toBook: map<string, int>)

  /** One leg: the payer gives what was asked, but no more than it holds.
      The receiver's holding is read after the payer's write, which matters
      only when the two books are one. */
  function Leg(b: Books, shared: bool, res: string, amount: int, fromPays: bool): Books {
    if shared then
      var have := Get(b.fromBook, res);
      var amt := Min(amount, have);
      var m1 := b.fromBook[res := Max(0, have - amt)];
      var m2 := m1[res := Get(m1, res) + amt];
      Books(m2, m2)
    else if fromPays then
      var have := Get(b.fromBook, res);
      var amt := Min(amount, have);
      Books(b.fromBook[res := Max(0, have - amt)], b.toBook[res := Get(b.toBook, res) + amt])
    else
      var have := Get(b.toBook, res);
      var amt := Min(amount, have);
      Books(b.fromBook[res := Get(b.fromBook, res) + amt], b.toBook[res := Max(0, have - amt)])
  }

  /** The legs of one side of the trade, in the dict's order. */
  function Legs(b: Books, shared: bool, legs: Dict<string, int>, fromPays: bool): Books {
    if legs == [] then b
    else
      var last := legs[|legs| - 1];
      Leg(Legs(b, shared, legs[..|legs| - 1], fromPays), shared, last.0, last.1, fromPays)
  }

  /** `_execute_direct_trade`: offered resources flow from `fromCode` to
      `toCode`, then requested ones back; the books of known regions are
      written back and those of unknown codes are dropped. */
  function DirectTrade(regions: Regions, fromCode: Code, toCode: Code,
                       offering: Dict<string, int>, requesting: Dict<string, int>): (r: Regions)
    ensures r.Keys == regions.Keys
    ensures forall c :: c in regions && c != fromCode && c != toCode ==> r[c] == regions[c]
  {
    var shared := fromCode == toCode && fromCode in regions;
    var b0 := Books(BookOf(regions, fromCode), BookOf(regions, toCode));
    var b := Legs(Legs(b0, shared, offering, true), shared, requesting, false);
    var r1 := if fromCode in regions then regions[fromCode := regions[fromCode].(resources := b.fromBook)] else regions;
    if toCode in r1 then r1[toCode := r1[toCode].(resources := b.toBook)] else r1
  }

  /** Between two separate books a leg moves an amount of one resource from
      one to the other and leaves every other resource alone. */
  lemma LegConserves(b: Books, res: string, amount: int, fromPays: bool, k: string)
    ensures var b' := Leg(b, false, res, amount, fromPays);
      && Get(b'.fromBook, k) + Get(b'.toBook, k) == Get(b.fromBook, k) + Get(b.toBook, k)
      && (k != res ==> Get(b'.fromBook, k) == Get(b.fromBook, k) && Get(b'.toBook, k) == Get(b.toBook, k))
  {
  }

  lemma {:induction false} LegsConserve(b: Books, legs: Dict<string, int>, fromPays: bool, k: string)
    ensures var b' := Legs(b, false, legs, fromPays);
      Get(b'.fromBook, k) + Get(b'.toBook, k) == Get(b.fromBook, k) + Get(b.toBook, k)
  {
    if legs != [] {
      var last := legs[|legs| - 1];
      LegsConserve(b, legs[..|legs| - 1], fromPays, k);
      LegConserves(Legs(b, false, legs[..|legs| - 1], fromPays), last.0, last.1, fromPays, k);
    }
  }

  /** A trade between two distinct known regions conserves every resource:
      what one side loses the other gains. */
  lemma DirectTradeConserves(regions: Regions, fromCode: Code, toCode: Code,
                             offering: Dict<string, int>, requesting: Dict<string, int>, res: string)
    requires fromCode != toCode && fromCode in regions && toCode in regions
    ensures var r := DirectTrade(regions, fromCode, toCode, offering, requesting);
      ResourceOf(r, fromCode, res) + ResourceOf(r, toCode, res)
        == ResourceOf(regions, fromCode, res) + ResourceOf(regions, toCode, res)
  {
    var b0 := Books(BookOf(regions, fromCode), BookOf(regions, toCode));
    var b1 := Legs(b0, false, offering, true);
    LegsConserve(b0, offering, true, res);
    LegsConserve(b1, requesting, false, res);
  }

  predicate NonNegativeBook(m: map<string, int>) {
    forall k :: k in m ==> m[k] >= 0
  }

  predicate NonNegativeAmounts(legs: Dict<string, int>) {
    forall i :: 0 <= i < |legs| ==> legs[i].1 >= 0
  }

  /** Nobody gives more than it holds: from non-negative holdings and
      amounts, every holding stays non-negative. */
  lemma {:induction false} LegsNonNegative(b: Books, shared: bool, legs: Dict<string, int>, fromPays: bool)
    requires NonNegativeBook(b.fromBook) && NonNegativeBook(b.toBook) && NonNegativeAmounts(legs)
    ensures var b' := Legs(b, shared, legs, fromPays);
      NonNegativeBook(b'.fromBook) && NonNegativeBook(b'.toBook)
  {
    if legs != [] {
      LegsNonNegative(b, shared, legs[..|legs| - 1], fromPays);
    }
  }

  lemma DirectTradeNonNegative(regions: Regions, fromCode: Code, toCode: Code,
                               offering: Dict<string, int>, requesting: Dict<string, int>)
    requires forall c :: c in regions ==> NonNegativeBook(regions[c].resources)
    requires NonNegativeAmounts(offering) && NonNegativeAmounts(requesting)
    ensures var r := DirectTrade(regions, fromCode, toCode, offering, requesting);
      forall c :: c in r ==> NonNegativeBook(r[c].resources)
  {
    var shared := fromCode == toCode && fromCode in regions;
    var b0 := Books(BookOf(regions, fromCode), BookOf(regions, toCode));
    LegsNonNegative(b0, shared, offering, true);
    LegsNonNegative(Legs(b0, shared, offering, true), shared, requesting, false);
  }

  /** On a single shared book a leg gives back what it takes. */
  lemma {:induction false} SharedLegsKeep(b: Books, legs: Dict<string, int>, fromPays: bool, k: string)
    requires b.fromBook == b.toBook
    ensures var b' := Legs(b, true, legs, fromPays);
      b'.fromBook == b'.toBook && Get(b'.fromBook, k) == Get(b.fromBook, k)
  {
    if legs != [] {
      SharedLegsKeep(b, legs[..|legs| - 1], fromPays, k);
    }
  }

  /** A region trading with itself keeps every holding. */
  lemma SelfTradeKeeps(regions: Regions, code: Code,
                       offering: Dict<string, int>, requesting: Dict<string, int>, res: string)
    requires code in regions
    ensures ResourceOf(DirectTrade(regions, code, code, offering, requesting), code, res) == ResourceOf(regions, code, res)
  {
    var b0 := Books(BookOf(regions, code), BookOf(regions, code));
    SharedLegsKeep(b0, offering, true, res);
    SharedLegsKeep(Legs(b0, true, offering, true), requesting, false, res);
  }

  // ---------------------------------------------------------------------------
  // Totals over the ten states
  // ---------------------------------------------------------------------------

  function Holdings(regions: Regions, res: string): Code -> int {
    c => ResourceOf(regions, c, res)
  }

  /** The national total of one resource. */
  function TotalOf(regions: Regions, res: string): int {
    SumOf(Config.StateCodes, Holdings(regions, res))
  }

  lemma StateCodesAreDistinct()
    ensures Distinct(Config.StateCodes)
  {
    Config.StateCodesDistinct();
  }

  /** A trade between two distinct known states leaves every national total
      as it was. */
  lemma DirectTradeKeepsTotals(regions: Regions, fromCode: Code, toCode: Code,
                               offering: Dict<string, int>, requesting: Dict<string, int>, res: string)
    requires fromCode != toCode && fromCode in regions && toCode in regions
    requires fromCode in Config.StateCodes && toCode in Config.StateCodes
    ensures TotalOf(DirectTrade(regions, fromCode, toCode, offering, requesting), res) == TotalOf(regions, res)
  {
    var r := DirectTrade(regions, fromCode, toCode, offering, requesting);
    DirectTradeConserves(regions, fromCode, toCode, offering, requesting, res);
    StateCodesAreDistinct();
    SumTransfer(Config.StateCodes, Holdings(regions, res), Holdings(r, res), fromCode, toCode);
  }

  // ---------------------------------------------------------------------------
  // Automatic trade matching
  // ---------------------------------------------------------------------------

  /** What a report offers of a resource: `surpluses[res].get("amount_available", 0)`. */
  function OfferedBy(reports: map<Code, StateReport>, other: Code, res: string): Option<int> {
    if other !in reports then None
    else
      var s := Lookup(reports[other].surpluses, res);
      if s.None? then None else Some(s.value.amountAvailable.GetOr(0))
  }

  /** Another state whose report lists a surplus of at least `amt` of `res`. */
  predicate CanSupply(reports: map<Code, StateReport>, code: Code, other: Code, res: string, amt: int) {
    other != code && OfferedBy(reports, other, res).Some? && OfferedBy(reports, other, res).value >= amt
  }

  /** The partner search of `_step_trade_matching`: the first state in `codes`
      that can supply, or none. */
  function FirstSupplier(codes: seq<Code>, reports: map<Code, StateReport>, code: Code, res: string, amt: int)
    : (r: Option<Code>)
    ensures r.None? <==> forall i :: 0 <= i < |codes| ==> !CanSupply(reports, code, codes[i], res, amt)
    ensures r.Some? ==> exists k :: (0 <= k < |codes| && codes[k] == r.value
              && CanSupply(reports, code, r.value, res, amt)
              && forall j :: 0 <= j < k ==> !CanSupply(reports, code, codes[j], res, amt))
  {
    if codes == [] then None
    else if CanSupply(reports, code, codes[0], res, amt) then
      assert codes[0] == codes[0];
      Some(codes[0])
    else
      var r := FirstSupplier(codes[1..], reports, code, res, amt);
      assert forall i :: 1 <= i < |codes| ==> codes[i] == codes[1..][i - 1];
      if r.Some? then
        var k :| 0 <= k < |codes[1..]| && codes[1..][k] == r.value
          && CanSupply(reports, code, r.value, res, amt)
          && forall j :: 0 <= j < k ==> !CanSupply(reports, code, codes[1..][j], res, amt);
        assert codes[k + 1] == r.value;
        assert forall j :: 0 <= j < k + 1 ==> !CanSupply(reports, code, codes[j], res, amt) by {
          forall j | 0 <= j < k + 1 ensures !CanSupply(reports, code, codes[j], res, amt) {
            if j > 0 { assert codes[j] == codes[1..][j - 1]; }
          }
        }
        r
      else
        r
  }

  /** A recommendation the matcher acts on: a TRADE with both resources
      named and a positive offer. */
  predicate Actionable(rec: TradeRecommendation) {
    && rec.action == Some("TRADE")
    && rec.offerResource.GetOr("") != ""
    && rec.requestResource.GetOr("") != ""
    && rec.offerAmount.GetOr(0) > 0
  }

  /** An entry of `trades_executed`. */
  datatype AutoTrade = AutoTrade(from: Code, to: Code, offered: (string, int), received: (string, int))

  /** One recommendation of state `code`: at most one trade, with the first
      state that can supply the requested amount. */
  function MatchOne(regions: Regions, reports: map<Code, StateReport>, code: Code, rec: TradeRecommendation)
    : (Regions, seq<AutoTrade>)
  {
    if !Actionable(rec) then (regions, [])
    else
      var offerRes, requestRes := rec.offerResource.GetOr(""), rec.requestResource.GetOr("");
      var offerAmt, requestAmt := rec.offerAmount.GetOr(0), rec.requestAmount.GetOr(0);
      var other := FirstSupplier(Config.StateCodes, reports, code, requestRes, requestAmt);
      if other.None? then (regions, [])
      else
        var actual := Min(requestAmt, OfferedBy(reports, other.value, requestRes).value);
        (DirectTrade(regions, code, other.value, [(offerRes, offerAmt)], [(requestRes, actual)]),
         [AutoTrade(code, other.value, (offerRes, offerAmt), (requestRes, actual))])
  }

  /** All recommendations of one state, in order. */
  function MatchRecs(regions: Regions, reports: map<Code, StateReport>, code: Code, recs: seq<TradeRecommendation>)
    : (r: (Regions, seq<AutoTrade>))
  {
    if recs == [] then (regions, [])
    else
      var prev := MatchRecs(regions, reports, code, recs[..|recs| - 1]);
      var step := MatchOne(prev.0, reports, code, recs[|recs| - 1]);
      (step.0, prev.1 + step.1)
  }

  function RecsOf(reports: map<Code, StateReport>, code: Code): seq<TradeRecommendation> {
    if code in reports then reports[code].tradeRecommendations else []
  }

  /** `_step_trade_matching` over a prefix of the state order. */
  function MatchCodes(regions: Regions, reports: map<Code, StateReport>, codes: seq<Code>)
    : (r: (Regions, seq<AutoTrade>))
  {
    if codes == [] then (regions, [])
    else
      var prev := MatchCodes(regions, reports, codes[..|codes| - 1]);
      var c := codes[|codes| - 1];
      var step := MatchRecs(prev.0, reports, c, RecsOf(reports, c));
      (step.0, prev.1 + step.1)
  }

  /** A matched trade is between the recommending state and the first other
      state that can supply, for the requested amount; a skipped
      recommendation changes nothing. */
  lemma MatchOneShape(regions: Regions, reports: map<Code, StateReport>, code: Code, rec: TradeRecommendation)
    ensures var m := MatchOne(regions, reports, code, rec);
      && |m.1| <= 1
      && (|m.1| == 0 ==> m.0 == regions)
      && (|m.1| == 1 ==>
            && Actionable(rec)
            && m.1[0].from == code && m.1[0].to != code
            && FirstSupplier(Config.StateCodes, reports, code, rec.requestResource.GetOr(""), rec.requestAmount.GetOr(0)) == Some(m.1[0].to)
            && m.1[0].to in Config.StateCodes
            && m.1[0].received == (rec.requestResource.GetOr(""), rec.requestAmount.GetOr(0))
            && m.1[0].offered == (rec.offerResource.GetOr(""), rec.offerAmount.GetOr(0)))
  {
  }

  /** With every state known, one recommendation keeps every national total. */
  lemma MatchOneKeepsTotals(regions: Regions, reports: map<Code, StateReport>, code: Code, rec: TradeRecommendation, res: string)
    requires forall c :: c in Config.StateCodes ==> c in regions
    requires code in Config.StateCodes
    ensures TotalOf(MatchOne(regions, reports, code, rec).0, res) == TotalOf(regions, res)
    ensures MatchOne(regions, reports, code, rec).0.Keys == regions.Keys
  {
    var m := MatchOne(regions, reports, code, rec);
    MatchOneShape(regions, reports, code, rec);
    if |m.1| == 1 {
      var t := m.1[0];
      DirectTradeKeepsTotals(regions, code, t.to, [t.offered], [t.received], res);
    }
  }

  lemma {:induction false} MatchRecsKeepsTotals(regions: Regions, reports: map<Code, StateReport>, code: Code,
                                                recs: seq<TradeRecommendation>, res: string)
    requires forall c :: c in Config.StateCodes ==> c in regions
    requires code in Config.StateCodes
    ensures var m := MatchRecs(regions, reports, code, recs);
      TotalOf(m.0, res) == TotalOf(regions, res) && m.0.Keys == regions.Keys && |m.1| <= |recs|
  {
    if recs != [] {
      var prev := MatchRecs(regions, reports, code, recs[..|recs| - 1]);
      MatchRecsKeepsTotals(regions, reports, code, recs[..|recs| - 1], res);
      MatchOneKeepsTotals(prev.0, reports, code, recs[|recs| - 1], res);
      MatchOneShape(prev.0, reports, code, recs[|recs| - 1]);
    }
  }

  /** Automatic matching moves resources between states but keeps every
      national total, when every state is known. */
  lemma {:induction false} MatchCodesKeepsTotals(regions: Regions, reports: map<Code, StateReport>, codes: seq<Code>, res: string)
    requires forall c :: c in Config.StateCodes ==> c in regions
    requires forall i :: 0 <= i < |codes| ==> codes[i] in Config.StateCodes
    ensures var m := MatchCodes(regions, reports, codes);
      TotalOf(m.0, res) == TotalOf(regions, res) && m.0.Keys == regions.Keys
  {
    if codes != [] {
      var prev := MatchCodes(regions, reports, codes[..|codes| - 1]);
      var c := codes[|codes| - 1];
      MatchCodesKeepsTotals(regions, reports, codes[..|codes| - 1], res);
      MatchRecsKeepsTotals(prev.0, reports, c, RecsOf(reports, c), res);
    }
  }

  // ---------------------------------------------------------------------------
  // Migration
  // ---------------------------------------------------------------------------

  /** A destination's welfare: `regions_data.get(c, {}).get("welfare_score", 0)`. */
  function WelfareAt(regions: Regions, c: Code): real {
    if c in regions then regions[c].welfareScore.GetOr(0.0) else 0.0
  }

  /** A source's welfare: a missing score reads as 50. */
  function SourceWelfare(regions: Regions, c: Code): real {
    if c in regions then regions[c].welfareScore.GetOr(50.0) else 50.0
  }

  function PopulationOf(regions: Regions, c: Code): int {
    if c in regions then regions[c].population.GetOr(0) else 0
  }

  /** The destination search over a prefix of the state order: strictly
      better welfare replaces the best so far, starting from 0. */
  function BestFrom(regions: Regions, code: Code, codes: seq<Code>): (r: (Option<Code>, real))
    ensures r.1 >= 0.0
    ensures r.0.None? ==> r.1 == 0.0
    ensures r.0.Some? ==>
              && r.0.value in codes && r.0.value != code && r.0.value in regions
              && WelfareAt(regions, r.0.value) == r.1 && r.1 > 0.0
    ensures forall i :: 0 <= i < |codes| && codes[i] != code ==> WelfareAt(regions, codes[i]) <= r.1
  {
    if codes == [] then (None, 0.0)
    else
      var prev := BestFrom(regions, code, codes[..|codes| - 1]);
      var d := codes[|codes| - 1];
      assert forall i :: 0 <= i < |codes| - 1 ==> codes[i] == codes[..|codes| - 1][i];
      if d != code && WelfareAt(regions, d) > prev.1 then (Some(d), WelfareAt(regions, d)) else prev
  }

  /** On ties the earliest state wins: no state before the chosen one has
      the same welfare. */
  lemma {:induction false} BestIsEarliest(regions: Regions, code: Code, codes: seq<Code>, k: nat)
    requires Distinct(codes)
    requires k < |codes| && BestFrom(regions, code, codes).0 == Some(codes[k])
    ensures forall j :: 0 <= j < k && codes[j] != code ==> WelfareAt(regions, codes[j]) < BestFrom(regions, code, codes).1
  {
    var n := |codes| - 1;
    var init := codes[..n];
    var prev := BestFrom(regions, code, init);
    var d := codes[n];
    if d != code && WelfareAt(regions, d) > prev.1 {
      assert BestFrom(regions, code, codes).1 == WelfareAt(regions, d);
      forall j | 0 <= j < k && codes[j] != code ensures WelfareAt(regions, codes[j]) < WelfareAt(regions, d) {
        if j < n {
          assert codes[j] == init[j];
        }
      }
    } else if k == n {
      assert false;
    } else {
      assert init[k] == codes[k];
      assert Distinct(init) by {
        forall a, b | 0 <= a < b < n ensures init[a] != init[b] {
          assert init[a] == codes[a] && init[b] == codes[b];
        }
      }
      BestIsEarliest(regions, code, init, k);
      forall j | 0 <= j < k && codes[j] != code ensures WelfareAt(regions, codes[j]) < prev.1 {
        assert codes[j] == init[j];
      }
    }
  }

  /** `int(pop * MIGRATION_RATE)` for an integer population. */
  function Migrants(pop: int): (m: int)
    ensures pop > 0 ==> 0 <= m && Config.MigrationDivisor * m <= pop < Config.MigrationDivisor * (m + 1)
    ensures pop <= 0 ==> m == 0
  {
    if pop > 0 then pop / Config.MigrationDivisor else 0
  }

  /** An entry of `migrations`. */
  datatype Migration = Migration(from: Code, to: Code, migrants: int)

  /** The migration check of one state. */
  function MigrateOne(regions: Regions, code: Code): (r: (Regions, seq<Migration>))
    ensures r.0.Keys == regions.Keys
  {
    var welfare := SourceWelfare(regions, code);
    if !(welfare < Config.WelfareMigrationThreshold) then (regions, [])
    else
      var best := BestFrom(regions, code, Config.StateCodes);
      if best.0.None? || !(best.1 > welfare) then (regions, [])
      else
        var dest := best.0.value;
        var pop := PopulationOf(regions, code);
        var m := Migrants(pop);
        if m <= 0 then (regions, [])
        else
          assert code in regions;
          var r1 := regions[code := regions[code].(population := Some(pop - m))];
          var destPop := r1[dest].population.GetOr(0);
          (r1[dest := r1[dest].(population := Some(destPop + m))], [Migration(code, dest, m)])
  }

  /** People leave only a state whose welfare is under the threshold, for the
      best other state when that is better still, two in every hundred of
      them rounded down; only the two populations change. */
  lemma MigrateOneShape(regions: Regions, code: Code)
    ensures var r := MigrateOne(regions, code);
      && |r.1| <= 1
      && (|r.1| == 0 ==> r.0 == regions)
      && (|r.1| == 1 ==>
            var mg := r.1[0];
            var best := BestFrom(regions, code, Config.StateCodes);
            && mg.from == code && code in regions && mg.to in regions && mg.to != code
            && SourceWelfare(regions, code) < Config.WelfareMigrationThreshold
            && best.0 == Some(mg.to) && best.1 > SourceWelfare(regions, code)
            && mg.migrants == Migrants(PopulationOf(regions, code)) && mg.migrants > 0
            && PopulationOf(r.0, code) == PopulationOf(regions, code) - mg.migrants
            && PopulationOf(r.0, mg.to) == PopulationOf(regions, mg.to) + mg.migrants
            && forall c :: c in regions && c != code && c != mg.to ==> r.0[c] == regions[c])
  {
  }

  function Populations(regions: Regions): Code -> int {
    c => PopulationOf(regions, c)
  }

  function TotalPopulation(regions: Regions): int {
    SumOf(Config.StateCodes, Populations(regions))
  }

  lemma MigrateOneKeepsPopulation(regions: Regions, code: Code)
    requires code in Config.StateCodes
    ensures TotalPopulation(MigrateOne(regions, code).0) == TotalPopulation(regions)
  {
    var r := MigrateOne(regions, code);
    MigrateOneShape(regions, code);
    if |r.1| == 1 {
      var mg := r.1[0];
      StateCodesAreDistinct();
      assert mg.to in Config.StateCodes;
      SumTransfer(Config.StateCodes, Populations(regions), Populations(r.0), code, mg.to);
    }
  }

  /** `_step_migration` over a prefix of the state order. */
  function MigrateCodes(regions: Regions, codes: seq<Code>): (r: (Regions, seq<Migration>))
    ensures r.0.Keys == regions.Keys
  {
    if codes == [] then (regions, [])
    else
      var prev := MigrateCodes(regions, codes[..|codes| - 1]);
      var step := MigrateOne(prev.0, codes[|codes| - 1]);
      (step.0, prev.1 + step.1)
  }

  /** Migration moves people between states and never changes the national
      population. */
  lemma {:induction false} MigrationKeepsPopulation(regions: Regions, codes: seq<Code>)
    requires forall i :: 0 <= i < |codes| ==> codes[i] in Config.StateCodes
    ensures TotalPopulation(MigrateCodes(regions, codes).0) == TotalPopulation(regions)
  {
    if codes != [] {
      var prev := MigrateCodes(regions, codes[..|codes| - 1]);
      MigrationKeepsPopulation(regions, codes[..|codes| - 1]);
      MigrateOneKeepsPopulation(prev.0, codes[|codes| - 1]);
    }
  }
}
